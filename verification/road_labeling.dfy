/**
 * The road-labeling screen: the road-information step, the segment cursor bounded by the
 * number of segments, and the label object its click handlers write.
 */
module RoadLabeling {
  import opened Wrappers
  import opened JsText
  import opened Radix
  import opened UiState

  // ----- the label object -----

  /** A label value: a flag a click toggles, or the option text a distance or shoulder button writes. */
  datatype LabelValue = Flag(on: bool) | Choice(text: string)

  /** The `labels` object; a key it lacks reads as `undefined`. */
  type Labels = map<string, LabelValue>

  /** `labels[key]` is truthy: `undefined`, `false` and `''` are not. */
  predicate Selected(labels: Labels, key: string) {
    key in labels && match labels[key] case Flag(b) => b case Choice(t) => t != ""
  }

  /** `a` and `b` hold the same entries at every key except possibly `key`. */
  ghost predicate SameOutside(a: Labels, b: Labels, key: string) {
    forall k | k != key :: (k in a <==> k in b) && (k in a ==> a[k] == b[k])
  }

  /** `${selectedTab}-${itemId}` */
  function LabelKey(tab: string, itemId: string): string {
    tab + "-" + itemId
  }

  /** `handleLabelClick(itemId)`: the key of the tab and item flips between selected and not. */
  function LabelClick(labels: Labels, tab: string, itemId: string): (r: Labels)
    ensures Selected(r, LabelKey(tab, itemId)) <==> !Selected(labels, LabelKey(tab, itemId))
    ensures LabelKey(tab, itemId) in r && r[LabelKey(tab, itemId)].Flag?
    ensures SameOutside(labels, r, LabelKey(tab, itemId))
  {
    var key := LabelKey(tab, itemId);
    labels[key := Flag(!Selected(labels, key))]
  }

  /** Clicking an item twice restores whether it is selected, and touches no other key. */
  lemma ClickTwiceRestores(labels: Labels, tab: string, itemId: string)
    ensures var twice := LabelClick(LabelClick(labels, tab, itemId), tab, itemId);
      && (Selected(twice, LabelKey(tab, itemId)) <==> Selected(labels, LabelKey(tab, itemId)))
      && SameOutside(labels, twice, LabelKey(tab, itemId))
  {
  }

  /** Twice is not the identity on the object itself: a never-clicked item is left holding `false`. */
  lemma ClickTwiceLeavesFlag()
    ensures LabelClick(LabelClick(map[], "Roadside", "tree"), "Roadside", "tree") == map["Roadside-tree" := Flag(false)]
  {
    assert LabelKey("Roadside", "tree") == "Roadside-tree";
  }

  /** `${side}-distance` */
  function DistanceKey(side: string): string {
    side + "-distance"
  }

  /** `handleDistanceSelect(distance, side)`: the side's distance becomes the chosen option. */
  function DistanceSelect(labels: Labels, distance: string, side: string): (r: Labels)
    ensures DistanceKey(side) in r && r[DistanceKey(side)] == Choice(distance)
    ensures SameOutside(labels, r, DistanceKey(side))
  {
    labels[DistanceKey(side) := Choice(distance)]
  }

  /** Picking a distance twice for one side keeps only the second pick. */
  lemma DistanceLastWins(labels: Labels, d1: string, d2: string, side: string)
    ensures DistanceSelect(DistanceSelect(labels, d1, side), d2, side) == DistanceSelect(labels, d2, side)
  {
  }

  /** `${side}-shoulder` */
  function ShoulderKey(side: string): string {
    side + "-shoulder"
  }

  /** `handleShoulderSelect(type, side)`: writes the chosen width under the side's shoulder key. */
  function ShoulderSelect(labels: Labels, kind: string, side: string): (r: Labels)
    ensures ShoulderKey(side) in r && r[ShoulderKey(side)] == Choice(kind)
    ensures SameOutside(labels, r, ShoulderKey(side))
  {
    labels[ShoulderKey(side) := Choice(kind)]
  }

  /** The key the paved-shoulder buttons of a side read to highlight the active width. */
  function ShoulderWidthKey(side: string): string {
    side + "-shoulder-width"
  }

  /**
   * The buttons pass `'left-shoulder'` (or `'right-shoulder'`) as the side and read
   * `left-shoulder-width`, but the handler writes `left-shoulder-shoulder`: whatever side it is
   * given, it never writes a key ending in `-width`, so no width button ever shows as active.
   */
  lemma ShoulderWidthNeverWritten(labels: Labels, kind: string, side: string, viewSide: string)
    ensures var r := ShoulderSelect(labels, kind, side);
      && (ShoulderWidthKey(viewSide) in r <==> ShoulderWidthKey(viewSide) in labels)
      && (ShoulderWidthKey(viewSide) in labels ==> r[ShoulderWidthKey(viewSide)] == labels[ShoulderWidthKey(viewSide)])
  {
    var written := ShoulderKey(side);
    var read := ShoulderWidthKey(viewSide);
    assert written[|written| - 1] == 'r';
    assert read[|read| - 1] == 'h';
    assert written != read;
  }

  /**
   * The object cards call the click handler with `left-${obj}` and read `labels['left-' + obj]`,
   * but the handler prefixes the tab: the key the card reads never changes, so a card never
   * shows as selected through its own clicks.
   */
  lemma ObjectClickMissesCard(labels: Labels, tab: string, obj: string)
    ensures var r := LabelClick(labels, tab, "left-" + obj);
      && (Selected(r, "left-" + obj) <==> Selected(labels, "left-" + obj))
      && ("left-" + obj in r <==> "left-" + obj in labels)
  {
    assert |LabelKey(tab, "left-" + obj)| > |"left-" + obj|;
  }

  // ----- the road-information step -----

  datatype Step = Info | Labeling

  datatype RoadInfo = RoadInfo(roadName: string, roadId: string, location: string, segmentLength: string)

  datatype RoadField = RoadName | RoadId | Location | SegmentLength

  /** `handleRoadInfoChange`: the named field takes the typed value. */
  function EditInfo(info: RoadInfo, field: RoadField, value: string): (r: RoadInfo)
    ensures field == RoadName ==> r == info.(roadName := value)
    ensures field == RoadId ==> r == info.(roadId := value)
    ensures field == Location ==> r == info.(location := value)
    ensures field == SegmentLength ==> r == info.(segmentLength := value)
  {
    match field
    case RoadName => info.(roadName := value)
    case RoadId => info.(roadId := value)
    case Location => info.(location := value)
    case SegmentLength => info.(segmentLength := value)
  }

  const MissingRoadAlert := "Please fill in Road Name and Road ID"

  /** `handleStartLabeling`: moves on when name and id are non-empty; the check does not trim. */
  function StartLabeling(info: RoadInfo): (r: Handled<Step>)
    ensures r.Alerted? <==> info.roadName == [] || info.roadId == []
    ensures r.Alerted? ==> r.message == MissingRoadAlert
    ensures r.Done? ==> r.value == Labeling
  {
    if info.roadName == [] || info.roadId == [] then Alerted(MissingRoadAlert) else Done(Labeling)
  }

  /** Unlike the dashboards' forms, a road name of spaces is accepted. */
  lemma BlankRoadNameAccepted()
    ensures Blank(" ")
    ensures StartLabeling(RoadInfo(" ", "RD-001", "", "")) == Done(Labeling)
  {
    assert AllSpace(" ");
  }

  function Max(a: int, b: int): (m: int)
    ensures m >= a && m >= b && (m == a || m == b)
  {
    if a >= b then a else b
  }

  /**
   * The segment-count input: `Math.max(1, parseInt(value) || 1)`. `NaN` and `0` are falsy and
   * become 1; a negative count is raised to 1; a positive count is kept.
   */
  function SegmentCount(text: string): (n: int)
    ensures n >= 1
    ensures ParseInt(text).Some? && ParseInt(text).value >= 1 ==> n == ParseInt(text).value
    ensures ParseInt(text).None? || ParseInt(text).value < 1 ==> n == 1
  {
    var orOne := match ParseInt(text) case Some(v) => if v != 0 then v else 1 case None => 1;
    Max(1, orOne)
  }

  /** Typing a positive count sets exactly that many segments. */
  lemma TypedCountKept(n: nat)
    requires n >= 1
    ensures SegmentCount(Render(n, 10)) == n
  {
    ParseRendered(n);
  }

  /** Clearing the field leaves one segment; so does a count below one. */
  lemma EmptyOrNegativeCountIsOne()
    ensures SegmentCount("") == 1
    ensures SegmentCount("-3") == 1
  {
    assert !IsSpace("-3"[0]);
    assert TrimStart("-3") == "-3";
  }

  // ----- the session and its cursor -----

  datatype Session = Session(info: RoadInfo, labels: Labels, tab: string, step: Step, segment: int, total: int)

  const InitialSession := Session(RoadInfo("", "", "", ""), map[], "Roadside", Info, 1, 1)

  /** `handleNextSegment`: moves on only while a segment remains, and then starts with no labels. */
  function NextSegment(s: Session): (r: Session)
    ensures r.segment == if s.segment < s.total then s.segment + 1 else s.segment
    ensures r.labels == if s.segment < s.total then map[] else s.labels
    ensures r.(segment := s.segment, labels := s.labels) == s
  {
    if s.segment < s.total then s.(segment := s.segment + 1, labels := map[]) else s
  }

  /** `handlePrevSegment`: moves back only above the first segment, and keeps the labels. */
  function PrevSegment(s: Session): (r: Session)
    ensures r.segment == if s.segment > 1 then s.segment - 1 else s.segment
    ensures r.(segment := s.segment) == s
  {
    if s.segment > 1 then s.(segment := s.segment - 1) else s
  }

  /** Going forward and back returns to the segment but not to its labels, which Next discarded. */
  lemma NextThenPrevLosesLabels(s: Session)
    requires 1 <= s.segment < s.total
    ensures PrevSegment(NextSegment(s)) == s.(labels := map[])
  {
  }

  /** What the user can do; each event is a handler bound to a control of one step's view. */
  datatype Event =
    | EditRoad(field: RoadField, value: string)
    | TypeSegmentCount(text: string)
    | Continue
    | SelectTab(name: string)
    | ClickItem(itemId: string)
    | PickDistance(distance: string, side: string)
    | PickShoulder(kind: string, side: string)
    | Next
    | Prev

  /** The information step shows the road form; the labeling step shows the rest. */
  predicate Rendered(step: Step, e: Event) {
    match e
    case EditRoad(_, _) => step == Info
    case TypeSegmentCount(_) => step == Info
    case Continue => step == Info
    case _ => step == Labeling
  }

  function Handle(s: Session, e: Event): Session {
    match e
    case EditRoad(field, value) => s.(info := EditInfo(s.info, field, value))
    case TypeSegmentCount(text) => s.(total := SegmentCount(text))
    case Continue =>
      (match StartLabeling(s.info)
       case Alerted(_) => s
       case Done(step) => s.(step := step))
    case SelectTab(name) => s.(tab := name)
    case ClickItem(itemId) => s.(labels := LabelClick(s.labels, s.tab, itemId))
    case PickDistance(distance, side) => s.(labels := DistanceSelect(s.labels, distance, side))
    case PickShoulder(kind, side) => s.(labels := ShoulderSelect(s.labels, kind, side))
    case Next => NextSegment(s)
    case Prev => PrevSegment(s)
  }

  /** The cursor stays within the segments, and sits on the first one until labeling starts. */
  predicate CursorValid(s: Session) {
    1 <= s.segment <= s.total && (s.step == Info ==> s.segment == 1)
  }

  lemma InitialCursorValid()
    ensures CursorValid(InitialSession)
  {
  }

  /** Every handler the current view offers keeps the cursor valid. */
  lemma HandleKeepsCursor(s: Session, e: Event)
    requires CursorValid(s) && Rendered(s.step, e)
    ensures CursorValid(Handle(s, e))
  {
  }

  /** The count input is safe only because the labeling view hides it: typed later it could strand the cursor. */
  lemma CountEditAfterStartStrandsCursor()
    ensures var s := InitialSession.(step := Labeling, segment := 2, total := 2);
      CursorValid(s) && !Rendered(s.step, TypeSegmentCount("1"))
      && !CursorValid(Handle(s, TypeSegmentCount("1")))
  {
    assert TrimStart("1") == "1";
    assert DigitRun("1", 10) == 1;
    assert DigitsValue("1", 10) == 1;
  }

  /** A session after a sequence of events; a control the current view does not show cannot fire. */
  function Run(s: Session, events: seq<Event>): Session
    decreases |events|
  {
    if events == [] then s
    else Run(if Rendered(s.step, events[0]) then Handle(s, events[0]) else s, events[1..])
  }

  /** From the start, `1 <= segmentNumber <= totalSegments` holds after any sequence of events. */
  lemma {:induction false} RunKeepsCursor(s: Session, events: seq<Event>)
    requires CursorValid(s)
    ensures CursorValid(Run(s, events))
    decreases |events|
  {
    if events != [] {
      var next := if Rendered(s.step, events[0]) then Handle(s, events[0]) else s;
      if Rendered(s.step, events[0]) {
        HandleKeepsCursor(s, events[0]);
      }
      RunKeepsCursor(next, events[1..]);
    }
  }

  lemma SessionCursorAlwaysValid(events: seq<Event>)
    ensures CursorValid(Run(InitialSession, events))
    ensures Run(InitialSession, events).total >= 1
  {
    InitialCursorValid();
    RunKeepsCursor(InitialSession, events);
  }
}
