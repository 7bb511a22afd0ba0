/**
 * How the pipeline is drawn (components/Stepper.tsx): for every stage,
 * whether it is done, current or still ahead, whether its date label is
 * shown, and which icon, node colour and label colour it gets, with the
 * style classes named by what they show.
 */
module Stepper {
  import opened Types
  import opened Text
  import opened StageEngine

  datatype Progress = Completed | Current | Pending

  /** Stages before the current one are done, the current one is current, the rest are ahead. */
  function ProgressOf(index: int, current: int): (p: Progress)
    ensures p == Completed <==> index < current
    ensures p == Current <==> index == current
    ensures p == Pending <==> index > current
  {
    if index < current then Completed else if index == current then Current else Pending
  }

  /** The applied stage: its upper-case name is 已投递. */
  predicate IsAppliedName(name: string)
  {
    Upper(name) == APPLIED_NAME
  }

  /** Upper-casing cannot turn any other name into 已投递. */
  lemma AppliedNameExact(name: string)
    ensures IsAppliedName(name) <==> name == APPLIED_NAME
  {
    UpperEqualsPlain(name, APPLIED_NAME);
  }

  /**
   * The date-label rule. The applied and the offer stage show a date when
   * one is recorded; any other stage after the first shows one once done, or
   * while current and rejected.
   */
  function ShowDate(name: string, index: int, current: int, status: Option<StepStatus>, dates: map<int, int>): (b: bool)
    ensures IsAppliedName(name) || IsOCName(name) ==> (b <==> HasTimestamp(dates, index))
    ensures !(IsAppliedName(name) || IsOCName(name)) ==>
      (b <==> index > 0 && (index < current || (index == current && status == Some(Rejected))))
  {
    if IsAppliedName(name) || IsOCName(name) then HasTimestamp(dates, index)
    else index > 0 && (ProgressOf(index, current) == Completed
                       || (ProgressOf(index, current) == Current && status == Some(Rejected)))
  }

  /** The date text; the formatted string itself is left to the locale library. */
  datatype DateLabel = NoDate | DateOf(timestamp: int)

  /** `showDate ? formatDate(stepDates[index]) : ''`, where a falsy timestamp formats as ''. */
  function DateText(shown: bool, dates: map<int, int>, index: int): (d: DateLabel)
    ensures d.DateOf? <==> shown && HasTimestamp(dates, index)
    ensures d.DateOf? ==> d.timestamp == dates[index] && d.timestamp != 0
  {
    if shown && HasTimestamp(dates, index) then DateOf(dates[index]) else NoDate
  }

  datatype Icon = CheckIcon | ClockIcon | CrossIcon | SpinnerIcon | CircleIcon

  /** getStepIcon. */
  function StepIcon(p: Progress, status: Option<StepStatus>, isOC: bool): (icon: Icon)
    ensures icon == CheckIcon <==> p == Completed || (p == Current && isOC)
    ensures icon == CircleIcon <==> p == Pending
    ensures p == Current && !isOC ==>
      icon == match status
              case Some(Waiting) => ClockIcon
              case Some(Rejected) => CrossIcon
              case _ => SpinnerIcon
  {
    match p
    case Completed => CheckIcon
    case Current =>
      if isOC then CheckIcon
      else if status == Some(Waiting) then ClockIcon
      else if status == Some(Rejected) then CrossIcon
      else SpinnerIcon
    case Pending => CircleIcon
  }

  /** The node styles: filled emerald, the three rings, and grey for stages ahead. */
  datatype NodeColor = DoneFill | OrangeRing | RedRing | EmeraldRing | GreyOutline

  /** getStepColorClasses. */
  function StepColor(p: Progress, status: Option<StepStatus>, isOC: bool): (c: NodeColor)
    ensures c == DoneFill <==> p == Completed || (p == Current && isOC)
    ensures c == GreyOutline <==> p == Pending
    ensures p == Current && !isOC ==>
      c == match status
           case Some(Waiting) => OrangeRing
           case Some(Rejected) => RedRing
           case _ => EmeraldRing
  {
    match p
    case Completed => DoneFill
    case Current =>
      if isOC then DoneFill
      else if status == Some(Waiting) then OrangeRing
      else if status == Some(Rejected) then RedRing
      else EmeraldRing
    case Pending => GreyOutline
  }

  datatype LabelColor = Emerald | EmeraldBold | OrangeBold | RedBold | Grey

  /** getLabelColorClass. */
  function LabelColorOf(p: Progress, status: Option<StepStatus>, isOC: bool): (c: LabelColor)
    ensures c == Emerald <==> p == Completed
    ensures c == Grey <==> p == Pending
    ensures p == Current && isOC ==> c == EmeraldBold
    ensures p == Current && !isOC ==>
      c == match status
           case Some(Waiting) => OrangeBold
           case Some(Rejected) => RedBold
           case _ => EmeraldBold
  {
    match p
    case Completed => Emerald
    case Current =>
      if isOC then EmeraldBold
      else if status == Some(Waiting) then OrangeBold
      else if status == Some(Rejected) then RedBold
      else EmeraldBold
    case Pending => Grey
  }

  /** The icon and the node colour always tell the same story. */
  lemma IconMatchesColor(p: Progress, status: Option<StepStatus>, isOC: bool)
    ensures var icon, c := StepIcon(p, status, isOC), StepColor(p, status, isOC);
      && (icon == CheckIcon <==> c == DoneFill)
      && (icon == ClockIcon <==> c == OrangeRing)
      && (icon == CrossIcon <==> c == RedRing)
      && (icon == SpinnerIcon <==> c == EmeraldRing)
      && (icon == CircleIcon <==> c == GreyOutline)
  {
  }

  /** On the current stage the label colour follows the node colour. */
  lemma LabelMatchesColor(status: Option<StepStatus>, isOC: bool)
    ensures var c, l := StepColor(Current, status, isOC), LabelColorOf(Current, status, isOC);
      && (c == OrangeRing <==> l == OrangeBold)
      && (c == RedRing <==> l == RedBold)
      && (c == DoneFill || c == EmeraldRing <==> l == EmeraldBold)
  {
  }

  /** The line to the next stage: none after the last stage, filled once the stage is done. */
  datatype Connector = NoConnector | Line(filled: bool)

  function ConnectorOf(index: int, count: int, p: Progress): (c: Connector)
    ensures c.NoConnector? <==> index == count - 1
    ensures c.Line? ==> (c.filled <==> p == Completed)
  {
    if index == count - 1 then NoConnector else Line(p == Completed)
  }

  datatype NodeView = NodeView(
    progress: Progress, dateShown: bool, date: DateLabel,
    icon: Icon, nodeColor: NodeColor, labelColor: LabelColor, connector: Connector)

  /** Everything drawn for the stage at `index`. */
  function Node(steps: seq<string>, index: int, current: int, status: Option<StepStatus>, dates: map<int, int>): NodeView
    requires 0 <= index < |steps|
  {
    var p := ProgressOf(index, current);
    var oc := IsOCName(steps[index]);
    var shown := ShowDate(steps[index], index, current, status, dates);
    NodeView(p, shown, DateText(shown, dates, index),
             StepIcon(p, status, oc), StepColor(p, status, oc), LabelColorOf(p, status, oc),
             ConnectorOf(index, |steps|, p))
  }

  /** `steps.map(...)`: one node per stage. */
  function Nodes(steps: seq<string>, current: int, status: Option<StepStatus>, dates: map<int, int>): (r: seq<NodeView>)
    ensures |r| == |steps|
    ensures forall i :: 0 <= i < |steps| ==> r[i] == Node(steps, i, current, status, dates)
  {
    seq(|steps|, i requires 0 <= i < |steps| => Node(steps, i, current, status, dates))
  }

  /** At most one node is current, and exactly one when the index is on the list. */
  lemma CurrentNode(steps: seq<string>, current: int, status: Option<StepStatus>, dates: map<int, int>)
    ensures var r := Nodes(steps, current, status, dates);
      forall i :: 0 <= i < |r| ==> (r[i].progress == Current <==> i == current)
  {
  }

  /** The first stage never shows a date unless it is the applied or the offer stage. */
  lemma FirstStageDate(steps: seq<string>, current: int, status: Option<StepStatus>, dates: map<int, int>)
    requires |steps| > 0 && steps[0] != APPLIED_NAME && !IsOCName(steps[0])
    ensures !Nodes(steps, current, status, dates)[0].dateShown
  {
    AppliedNameExact(steps[0]);
  }

  function CountCompleted(r: seq<NodeView>): (n: nat)
    ensures n <= |r|
  {
    if r == [] then 0 else CountCompleted(r[..|r| - 1]) + (if r[|r| - 1].progress == Completed then 1 else 0)
  }

  function CountFilled(r: seq<NodeView>): (n: nat)
    ensures n <= |r|
  {
    if r == [] then 0
    else CountFilled(r[..|r| - 1]) + (if r[|r| - 1].connector == Line(true) then 1 else 0)
  }

  function Clamp(x: int, lo: int, hi: int): int
  {
    if x < lo then lo else if x > hi then hi else x
  }

  /** The number of done stages is the current index, kept within the list. */
  lemma {:induction false} CompletedCount(steps: seq<string>, current: int, status: Option<StepStatus>, dates: map<int, int>)
    ensures CountCompleted(Nodes(steps, current, status, dates)) == Clamp(current, 0, |steps|)
  {
    CompletedPrefix(Nodes(steps, current, status, dates), current);
  }

  lemma {:induction false} CompletedPrefix(r: seq<NodeView>, current: int)
    requires forall i :: 0 <= i < |r| ==> (r[i].progress == Completed <==> i < current)
    ensures CountCompleted(r) == Clamp(current, 0, |r|)
  {
    if r != [] {
      CompletedPrefix(r[..|r| - 1], current);
    }
  }

  /** Filled connectors follow exactly the done stages, except after the last stage. */
  lemma {:induction false} FilledCount(steps: seq<string>, current: int, status: Option<StepStatus>, dates: map<int, int>)
    requires |steps| > 0
    ensures CountFilled(Nodes(steps, current, status, dates)) == Clamp(current, 0, |steps| - 1)
  {
    var r := Nodes(steps, current, status, dates);
    FilledPrefix(r, current, |steps|);
  }

  lemma {:induction false} FilledPrefix(r: seq<NodeView>, current: int, count: int)
    requires 1 <= count && |r| <= count
    requires forall i :: 0 <= i < |r| ==> (r[i].connector == Line(true) <==> i < current && i != count - 1)
    ensures CountFilled(r) == Clamp(current, 0, if |r| == count then count - 1 else |r|)
  {
    if r != [] {
      FilledPrefix(r[..|r| - 1], current, count);
    }
  }
}
