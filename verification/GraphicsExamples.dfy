/**
 Runs of the program, from a new host and with a replay asked for before every painted frame, that reach the two ways in
 which a painted frame can go wrong.
 */
module GraphicsExamples {
  import opened Prelude
  import opened KittyProtocol
  import opened GraphicsSpec
  import opened GraphicsMirror
  import opened GraphicsDrain
  import opened GraphicsMissed
  import opened GraphicsPaint
  import opened GraphicsCollisions

  const OLD: ImageSignature := ImageSignature(1, 1, 32, 4, 1)
  const NEW: ImageSignature := ImageSignature(1, 1, 32, 4, 2)
  const OLD_DATA: seq<byte> := [0, 0, 0, 0]
  const NEW_DATA: seq<byte> := [9, 9, 9, 9]
  const SPOT: Shown := Shown(0, 0, 1, 1, 0, 0, 1, 1, 0, 0, 0)
  const SEVENTH: SourceKey := TerminalImage(0, 7)
  const EIGHTH: SourceKey := TerminalImage(0, 8)

  function Print(data: seq<byte>): nat {
    if data == OLD_DATA then 1 else 2
  }

  /** An entry of a terminal program at the one spot of its pane. */
  function Entry(source: SourceKey, id: u32, placement: u32, signature: ImageSignature, data: seq<byte>)
      : HostPlacement
  {
    HostPlacement(source, None, id, placement, signature, Some(SPOT), 0, data)
  }

  const PLACED: PlacementSignature := PlacementSignature(SPOT, 0)

  // --- Evaluating a call ---

  lemma EmptyOrInhabited<T>(s: seq<T>)
    ensures s == [] || exists x :: x in s
  {
    if s != [] { assert s[0] in s; }
  }

  /** A call that has nothing to delete first is its scan. */
  lemma TidyCall(c: Cache, list: seq<HostPlacement>, live: set<SourceKey>, budget: Option<nat>, kept: Cache)
    requires DeadSources(c, live) == {} && kept == Retain(c, list, live) && StaleKeys(kept, list) == {}
    ensures Incremental(c, list, live, budget) == Scan(Visiting(budget), kept, list, StartIndex(c, list), |list|, [],
                                                       false)
    ensures CallEmission(c, list, live, budget) == Emission(Visiting(budget), kept, list, StartIndex(c, list), |list|)
  {
    EmptyOrInhabited(SortedSources(DeadSources(c, live)));
    EmptyOrInhabited(SortedKeys(StaleKeys(kept, list)));
  }

  lemma SortedOne(k: Key)
    ensures SortedKeys({k}) == [k]
  {
    PairLeqTotal();
    assert Ordering.IsLeast(k, {k}, Ordering.PairLeq);
    Ordering.SortedUnfold({k}, k, Ordering.PairLeq);
    EmptyOrInhabited(Ordering.Sorted({k} - {k}, Ordering.PairLeq));
  }

  /** A call that has one placement to delete first, and nothing to emit afterwards. */
  lemma OneStaleCall(c: Cache, list: seq<HostPlacement>, live: set<SourceKey>, budget: Option<nat>, kept: Cache, k: Key)
    requires DeadSources(c, live) == {} && kept == Retain(c, list, live) && StaleKeys(kept, list) == {k}
    ensures Incremental(c, list, live, budget)
            == Scan(Visiting(budget), DropPlacement(kept, k), list, StartIndex(c, list), |list|,
                    [DeletePlacement(k.0, k.1)], true)
  {
    EmptyOrInhabited(SortedSources(DeadSources(c, live)));
    SortedOne(k);
    DropOne(kept, k);
  }

  lemma DropOne(c: Cache, k: Key)
    ensures DropStale(c, [k], [], false) == Stage(DropPlacement(c, k), [DeletePlacement(k.0, k.1)], true, false)
  {
    assert [k][1..] == [];
    assert [] + [DeletePlacement(k.0, k.1)] == [DeletePlacement(k.0, k.1)];
    assert DropStale(DropPlacement(c, k), [], [DeletePlacement(k.0, k.1)], true).emitted;
  }

  // --- Runs of frames ---

  /** `h` after a call with this outcome. */
  function Painted(h: Host, o: Outcome): Host {
    Host(o.cache, Interpret(h.terminal, o.commands), h.lost - Displayed(o.commands))
  }

  function Replaying(h: Host): Host {
    h.(cache := RequestReplay(h.cache))
  }

  function Frame(list: seq<HostPlacement>): Step {
    PaintFrame(list, {}, None)
  }

  ghost predicate AllComplete(hosts: seq<Host>, steps: seq<Step>)
    requires |hosts| == |steps| + 1
  {
    forall i :: 0 <= i < |steps| ==> Completes(hosts[i], steps[i])
  }

  function Last(hosts: seq<Host>): Host
    requires hosts != []
  {
    hosts[|hosts| - 1]
  }

  /** The run goes on with a frame: a replay is asked for, and one call made. */
  function WithFrame(hosts: seq<Host>, o: Outcome): (r: seq<Host>)
    requires hosts != []
    ensures |r| == |hosts| + 2 && Last(r) == Painted(Replaying(Last(hosts)), o)
  {
    hosts + [Replaying(Last(hosts)), Painted(Replaying(Last(hosts)), o)]
  }

  function WithView(hosts: seq<Host>, view: Option<View>): (r: seq<Host>)
    requires hosts != []
    ensures |r| == |hosts| + 1 && Last(r) == Last(hosts).(cache := UpdateView(Last(hosts).cache, view))
  {
    hosts + [Last(hosts).(cache := UpdateView(Last(hosts).cache, view))]
  }

  /** A run as the program makes it, in which every call completes. */
  ghost predicate Smooth(fp: Fingerprint, ident: Ident, hosts: seq<Host>, steps: seq<Step>) {
    Run(fp, ident, hosts, steps) && AsksFirst(steps) && AllComplete(hosts, steps)
  }

  lemma RunGrows(fp: Fingerprint, ident: Ident, hosts: seq<Host>, steps: seq<Step>, step: Step, h': Host)
    requires Run(fp, ident, hosts, steps) && Admissible(fp, ident, step) && Next(Last(hosts), step, h')
    ensures Run(fp, ident, hosts + [h'], steps + [step])
  {
    var hosts', steps' := hosts + [h'], steps + [step];
    forall i | 0 <= i < |steps'| ensures Admissible(fp, ident, steps'[i]) && Next(hosts'[i], steps'[i], hosts'[i + 1]) {
      if i < |steps| {
        assert steps'[i] == steps[i] && hosts'[i] == hosts[i] && hosts'[i + 1] == hosts[i + 1];
      }
    }
  }

  lemma AsksGrows(steps: seq<Step>, step: Step)
    requires AsksFirst(steps) && (step.PaintFrame? ==> steps != [] && steps[|steps| - 1].AskReplay?)
    ensures AsksFirst(steps + [step])
  {
  }

  lemma CompleteGrows(hosts: seq<Host>, steps: seq<Step>, step: Step, h': Host)
    requires |hosts| == |steps| + 1 && AllComplete(hosts, steps) && Completes(Last(hosts), step)
    ensures AllComplete(hosts + [h'], steps + [step])
  {
    var hosts', steps' := hosts + [h'], steps + [step];
    forall i | 0 <= i < |steps'| ensures Completes(hosts'[i], steps'[i]) {
      if i < |steps| { assert steps'[i] == steps[i] && hosts'[i] == hosts[i]; }
    }
  }

  lemma SmoothStep(fp: Fingerprint, ident: Ident, hosts: seq<Host>, steps: seq<Step>, step: Step, h': Host)
    requires Smooth(fp, ident, hosts, steps) && Admissible(fp, ident, step) && Next(Last(hosts), step, h')
    requires Completes(Last(hosts), step)
    requires step.PaintFrame? ==> steps != [] && steps[|steps| - 1].AskReplay?
    ensures Smooth(fp, ident, hosts + [h'], steps + [step])
  {
    RunGrows(fp, ident, hosts, steps, step, h');
    AsksGrows(steps, step);
    CompleteGrows(hosts, steps, step, h');
  }

  lemma SmoothFrame(fp: Fingerprint, ident: Ident, hosts: seq<Host>, steps: seq<Step>, list: seq<HostPlacement>,
                    o: Outcome)
    requires Smooth(fp, ident, hosts, steps) && Wellformed(fp, ident, list)
    requires o == Incremental(RequestReplay(Last(hosts).cache), list, {}, None) && !o.incomplete
    ensures Smooth(fp, ident, WithFrame(hosts, o), steps + [AskReplay, Frame(list)])
  {
    var asked := Replaying(Last(hosts));
    SmoothStep(fp, ident, hosts, steps, AskReplay, asked);
    SmoothStep(fp, ident, hosts + [asked], steps + [AskReplay], Frame(list), Painted(asked, o));
    assert hosts + [asked] + [Painted(asked, o)] == WithFrame(hosts, o);
    assert steps + [AskReplay] + [Frame(list)] == steps + [AskReplay, Frame(list)];
  }

  lemma SmoothView(fp: Fingerprint, ident: Ident, hosts: seq<Host>, steps: seq<Step>, view: Option<View>)
    requires Smooth(fp, ident, hosts, steps)
    ensures Smooth(fp, ident, WithView(hosts, view), steps + [ChangeView(view)])
  {
    SmoothStep(fp, ident, hosts, steps, ChangeView(view), Last(hosts).(cache := UpdateView(Last(hosts).cache, view)));
  }

  lemma SmoothStart(fp: Fingerprint, ident: Ident, list: seq<HostPlacement>, o: Outcome)
    requires Wellformed(fp, ident, list)
    requires o == Incremental(RequestReplay(EMPTY_CACHE), list, {}, None) && !o.incomplete
    ensures Smooth(fp, ident, WithFrame([NEW_HOST], o), [AskReplay, Frame(list)])
  {
    SmoothFrame(fp, ident, [NEW_HOST], [], list, o);
    assert [] + [AskReplay, Frame(list)] == [AskReplay, Frame(list)];
  }

  /** Two frames, a change of the view, and a third frame. */
  lemma ThreeFrames(fp: Fingerprint, ident: Ident, a: seq<HostPlacement>, b: seq<HostPlacement>, c: seq<HostPlacement>,
                    first: Outcome, second: Outcome, third: Outcome, view: Option<View>) returns (steps: seq<Step>)
    requires Wellformed(fp, ident, a) && Wellformed(fp, ident, b) && Wellformed(fp, ident, c)
    requires first == Incremental(RequestReplay(EMPTY_CACHE), a, {}, None) && !first.incomplete
    requires second == Incremental(RequestReplay(first.cache), b, {}, None) && !second.incomplete
    requires third == Incremental(RequestReplay(UpdateView(second.cache, view)), c, {}, None) && !third.incomplete
    ensures Smooth(fp, ident, WithFrame(WithView(WithFrame(WithFrame([NEW_HOST], first), second), view), third), steps)
    ensures steps == [AskReplay, Frame(a), AskReplay, Frame(b), ChangeView(view), AskReplay, Frame(c)]
  {
    SmoothStart(fp, ident, a, first);
    steps := [AskReplay, Frame(a)];
    var hosts := WithFrame([NEW_HOST], first);
    SmoothFrame(fp, ident, hosts, steps, b, second);
    steps, hosts := steps + [AskReplay, Frame(b)], WithFrame(hosts, second);
    SmoothView(fp, ident, hosts, steps, view);
    steps, hosts := steps + [ChangeView(view)], WithView(hosts, view);
    SmoothFrame(fp, ident, hosts, steps, c, third);
    steps := steps + [AskReplay, Frame(c)];
  }

  function TwoSteps(a: seq<HostPlacement>, b: seq<HostPlacement>): seq<Step> {
    [AskReplay, Frame(a), AskReplay, Frame(b)]
  }

  function TwoHosts(a: Outcome, b: Outcome): seq<Host> {
    var first := Painted(Replaying(NEW_HOST), a);
    [NEW_HOST, Replaying(NEW_HOST), first, Replaying(first), Painted(Replaying(first), b)]
  }

  lemma TwoFrames(fp: Fingerprint, ident: Ident, a: seq<HostPlacement>, b: seq<HostPlacement>, first: Outcome,
                  second: Outcome)
    requires RawList(fp, ident, a) && RawList(fp, ident, b)
    requires first == Incremental(RequestReplay(EMPTY_CACHE), a, {}, None)
    requires second == Incremental(RequestReplay(first.cache), b, {}, None)
    ensures var hosts, steps := TwoHosts(first, second), TwoSteps(a, b);
            RawRun(fp, ident, hosts, steps) && AsksFirst(steps)
                && (Completes(hosts[1], steps[1]) <==> !first.incomplete)
  {
    var hosts, steps := TwoHosts(first, second), TwoSteps(a, b);
    forall i | 0 <= i < |steps| ensures RawAdmissible(fp, ident, steps[i]) && Next(hosts[i], steps[i], hosts[i + 1]) {
      assert i == 1 ==> steps[i] == Frame(a);
      assert i == 3 ==> steps[i] == Frame(b);
    }
  }

  lemma TwoHostsEnd(first: Outcome, second: Outcome)
    ensures var h := TwoHosts(first, second)[4];
            && h.cache == second.cache
            && h.terminal == Interpret(Interpret(NEW_HOST.terminal, first.commands), second.commands)
  {
  }

  // --- An entry that is missed ---

  function FirstList(data: seq<byte>): seq<HostPlacement> {
    [Entry(SEVENTH, 1, 1, OLD, data)]
  }

  function HiddenList(data: seq<byte>): seq<HostPlacement> {
    [Entry(SEVENTH, 1, 1, OLD, data).(clip := None)]
  }

  function LastList(data: seq<byte>): seq<HostPlacement> {
    [Entry(SEVENTH, 2, 1, NEW, NEW_DATA), Entry(EIGHTH, 1, 2, OLD, data)]
  }

  const SHOWING: Cache :=
    Cache(map[1 := OLD], map[(1, 1) := PLACED], map[SEVENTH := 1], map[], Some(Cursor(SEVENTH, 1, 0)), None, false, {})

  const HIDING: Cache := SHOWING.(placements := map[])

  const MISSING: Cache :=
    Cache(map[2 := NEW], map[(2, 1) := PLACED], map[SEVENTH := 2], map[], Some(Cursor(SEVENTH, 1, 1)),
          Some(View(0, 1)), false, {})

  const SHOWN: Outcome := Outcome(SHOWING, [Upload(1, Image(32, 1, 1, OLD_DATA)), Display(1, 1, SPOT)], false)
  const HIDDEN: Outcome := Outcome(HIDING, [DeletePlacement(1, 1)], false)
  const MISSED: Outcome :=
    Outcome(MISSING, [Upload(2, Image(32, 1, 1, NEW_DATA)), DeleteImage(1), Display(2, 1, SPOT)], false)

  lemma FirstCall()
    ensures Incremental(RequestReplay(EMPTY_CACHE), FirstList(OLD_DATA), {}, None) == SHOWN
  {
    var c, list := RequestReplay(EMPTY_CACHE), FirstList(OLD_DATA);
    assert Retain(c, list, {}) == c;
    TidyCall(c, list, {}, None, c);
  }

  lemma HidingCall()
    ensures Incremental(RequestReplay(SHOWING), HiddenList([]), {}, None) == HIDDEN
  {
    var c, list := RequestReplay(SHOWING), HiddenList([]);
    var kept := Retain(c, list, {});
    assert list[0].source in DesiredSources(list);
    assert kept == c;
    assert StaleKeys(kept, list) == {(1, 1)};
    OneStaleCall(c, list, {}, None, kept, (1, 1));
    assert DropPlacement(kept, (1, 1)) == HIDING.(replay := true);
  }

  const TURNED: Cache := UpdateView(HIDING, Some(View(0, 1)))

  /** The first entry takes its source from the old image, which is deleted. */
  lemma MissingEmits(c: Cache)
    requires c == RequestReplay(TURNED)
    ensures VisitPlacement(c, LastList([])[0], None)
            == Emit(c, MISSING.(continuation := None, replay := true, replayed := {(2, 1)}), MISSED.commands)
  {
    var p := LastList([])[0];
    var sent := SendImage(c, p).0;
    assert sent.images == map[1 := OLD, 2 := NEW];
    var released := Release(sent, p.source, 2).0;
    assert released.images == map[2 := NEW];
    assert PlacementUpdate(c, p).Some?;
  }

  /** The second has no data to send the old image again. */
  lemma MissingCall()
    ensures Incremental(RequestReplay(TURNED), LastList([]), {}, None) == MISSED
  {
    var c, list := RequestReplay(TURNED), LastList([]);
    assert list[0].source in DesiredSources(list);
    assert Retain(c, list, {}) == c;
    TidyCall(c, list, {}, None, c);
    MissingEmits(c);
  }

  function Idents(id: u32): Owner {
    if id == 1 then Pixels(OLD) else Pixels(NEW)
  }

  const SHOWN_HOSTS: seq<Host> := WithFrame([NEW_HOST], SHOWN)
  const TURNED_HOSTS: seq<Host> := WithView(WithFrame(SHOWN_HOSTS, HIDDEN), Some(View(0, 1)))

  lemma ListsWellformed()
    ensures Wellformed(Print, Idents, FirstList(OLD_DATA)) && Wellformed(Print, Idents, HiddenList([]))
            && Wellformed(Print, Idents, LastList([]))
  {
  }

  /** Every list is what the program collects from the cache at that moment. */
  lemma MissedCollects()
    ensures FirstList(OLD_DATA) == Collected(NEW_HOST.cache, FirstList(OLD_DATA))
    ensures HiddenList([]) == Collected(SHOWING, HiddenList(OLD_DATA))
    ensures LastList([]) == Collected(TURNED, LastList(OLD_DATA))
  {
  }

  /** A run that misses an entry: every call completes, and yet the last entry of the last list is visible and not
      shown. */
  lemma MissedInARun() returns (steps: seq<Step>)
    ensures Smooth(Print, Idents, WithFrame(TURNED_HOSTS, MISSED), steps)
    ensures Last(SHOWN_HOSTS).cache == SHOWING && Last(TURNED_HOSTS).cache == TURNED
    ensures steps == [AskReplay, Frame(FirstList(OLD_DATA)), AskReplay, Frame(HiddenList([])),
                      ChangeView(Some(View(0, 1))),
                      AskReplay, Frame(LastList([]))]
    ensures LastList([])[1].Visible() && !Last(WithFrame(TURNED_HOSTS, MISSED)).cache.Current(LastList([])[1])
  {
    FirstCall();
    HidingCall();
    MissingCall();
    ListsWellformed();
    steps := ThreeFrames(Print, Idents, FirstList(OLD_DATA), HiddenList([]), LastList([]), SHOWN, HIDDEN, MISSED,
                         Some(View(0, 1)));
  }

  // --- A placement that the terminal lacks ---

  const OTHER: ImageSignature := ImageSignature(2, 2, 32, 4, 2)

  function TwoList(): seq<HostPlacement> {
    [Entry(SEVENTH, 1, 1, OLD, OLD_DATA), Entry(EIGHTH, 2, 2, OTHER, NEW_DATA)]
  }

  /** The first entry again, with other pixels whose host id is the same. */
  function CollidingList(): seq<HostPlacement> {
    [Entry(SEVENTH, 1, 1, NEW, NEW_DATA)]
  }

  const HALF: Cache :=
    Cache(map[1 := OLD], map[(1, 1) := PLACED], map[SEVENTH := 1], map[], Some(Cursor(SEVENTH, 1, 1)), None, true,
          {(1, 1)})

  const BROKEN: Cache :=
    Cache(map[1 := NEW], map[(1, 1) := PLACED], map[SEVENTH := 1], map[], Some(Cursor(SEVENTH, 1, 0)), None, false, {})

  const HALVED: Outcome := Outcome(HALF, [Upload(1, Image(32, 1, 1, OLD_DATA)), Display(1, 1, SPOT)], true)
  const COLLIDED: Outcome := Outcome(BROKEN, [DeleteImage(1), Upload(1, Image(32, 1, 1, NEW_DATA))], false)

  lemma HalfCall()
    ensures Incremental(RequestReplay(EMPTY_CACHE), TwoList(), {}, None) == HALVED
  {
    var c, list := RequestReplay(EMPTY_CACHE), TwoList();
    assert Retain(c, list, {}) == c;
    TidyCall(c, list, {}, None, c);
  }

  lemma BrokenCall()
    ensures Incremental(RequestReplay(HALF), CollidingList(), {}, None) == COLLIDED
  {
    var c, list := RequestReplay(HALF), CollidingList();
    assert list[0].source in DesiredSources(list);
    assert Retain(c, list, {}) == c;
    TidyCall(c, list, {}, None, c);
  }

  /** What the terminal reads: the image with its placement, and then another image in its stead. */
  lemma CollidedScreen()
    ensures Interpret(Interpret(NEW_HOST.terminal, HALVED.commands), COLLIDED.commands).placements == map[]
  {
    InterpretTwo(NEW_HOST.terminal, HALVED.commands[0], HALVED.commands[1]);
    InterpretTwo(Interpret(NEW_HOST.terminal, HALVED.commands), COLLIDED.commands[0], COLLIDED.commands[1]);
  }

  /** A run that breaks the mirror: the first frame is left incomplete, and before it is taken up again a program
      changes the image of an entry that was displayed, to one with the same host id. */
  lemma BrokenInARun(hosts: seq<Host>, steps: seq<Step>)
    requires hosts == TwoHosts(HALVED, COLLIDED) && steps == TwoSteps(TwoList(), CollidingList())
    ensures RawRun(Print, Idents, hosts, steps) && AsksFirst(steps) && !Completes(hosts[1], steps[1])
    ensures (1, 1) in hosts[4].cache.placements && hosts[4].terminal.placements == map[]
  {
    BrokenRuns();
    CollidedScreen();
    TwoHostsEnd(HALVED, COLLIDED);
  }

  lemma BrokenRuns()
    ensures var hosts, steps := TwoHosts(HALVED, COLLIDED), TwoSteps(TwoList(), CollidingList());
            RawRun(Print, Idents, hosts, steps) && AsksFirst(steps) && !Completes(hosts[1], steps[1])
  {
    HalfCall();
    BrokenCall();
    TwoFrames(Print, Idents, TwoList(), CollidingList(), HALVED, COLLIDED);
  }
}
