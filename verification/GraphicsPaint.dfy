/**
 Painting one frame: the loop that collects the entries again before each call, leaving out the data of every image
 that the cache records at that moment, and calls the encoder with a replay until a call completes.
 */
module GraphicsPaint {
  import opened Prelude
  import opened KittyProtocol
  import opened GraphicsSpec
  import opened GraphicsMirror
  import opened GraphicsDrain
  import opened GraphicsCollected
  import opened GraphicsMissed

  /** `p` as it is collected: without its data when the cache records its image. */
  function Collect(c: Cache, p: HostPlacement): HostPlacement {
    if c.ImageCurrent(p) then p.(data := []) else p
  }

  function Collected(c: Cache, full: seq<HostPlacement>): (list: seq<HostPlacement>)
    ensures |list| == |full| && forall i :: 0 <= i < |full| ==> list[i] == Collect(c, full[i])
  {
    seq(|full|, i requires 0 <= i < |full| => Collect(c, full[i]))
  }

  /** The cache when the encoder is called: the view is noted and a replay asked for. */
  function Prepared(c: Cache, view: Option<View>): Cache {
    Begin(UpdateView(c, view), true)
  }

  ghost function PaintCall(c: Cache, full: seq<HostPlacement>, live: set<SourceKey>, view: Option<View>): Outcome {
    Incremental(Prepared(c, view), Collected(c, full), live, None)
  }

  // --- What collecting leaves alone ---

  lemma CollectedFrom(c: Cache, full: seq<HostPlacement>, q: HostPlacement)
    requires q in Collected(c, full)
    ensures exists p :: p in full && q == Collect(c, p)
  {
    var i :| 0 <= i < |full| && Collected(c, full)[i] == q;
    assert full[i] in full;
  }

  lemma CollectedHas(c: Cache, full: seq<HostPlacement>, p: HostPlacement)
    requires p in full
    ensures Collect(c, p) in Collected(c, full)
  {
    var i :| 0 <= i < |full| && full[i] == p;
    assert Collected(c, full)[i] == Collect(c, p);
  }

  lemma CollectedCoherent(ident: Ident, c: Cache, full: seq<HostPlacement>, live: set<SourceKey>)
    requires Coherent(ident, full, live)
    ensures Coherent(ident, Collected(c, full), live)
  {
    var list := Collected(c, full);
    forall q | q in list ensures Identified(ident, q) && (q.source.PaneLayer? ==> q.source in live) {
      CollectedFrom(c, full, q);
      var p :| p in full && q == Collect(c, p);
      assert Identified(ident, p);
    }
    forall a, b | a in list && b in list ensures Apart(a, b) {
      CollectedFrom(c, full, a);
      CollectedFrom(c, full, b);
      var p :| p in full && a == Collect(c, p);
      var q :| q in full && b == Collect(c, q);
      assert Apart(p, q);
    }
  }

  lemma CollectedWellformed(fp: Fingerprint, ident: Ident, c: Cache, full: seq<HostPlacement>)
    requires Wellformed(fp, ident, full)
    ensures Wellformed(fp, ident, Collected(c, full))
  {
    forall q | q in Collected(c, full) ensures Identified(ident, q) && Described(fp, q) {
      CollectedFrom(c, full, q);
      var p :| p in full && q == Collect(c, p);
      assert Identified(ident, p) && Described(fp, p);
    }
  }

  /** Collecting leaves out data and nothing else, so that the same work remains. */
  lemma CollectedStale(b: Cache, c: Cache, full: seq<HostPlacement>)
    ensures StaleKeys(c, Collected(b, full)) == StaleKeys(c, full)
  {
    var list := Collected(b, full);
    forall k ensures k in DesiredKeys(list) <==> k in DesiredKeys(full) {
      if k in DesiredKeys(list) {
        var q :| q in list && q.Visible() && q.Key() == k;
        CollectedFrom(b, full, q);
      }
      if k in DesiredKeys(full) {
        var p :| p in full && p.Visible() && p.Key() == k;
        CollectedHas(b, full, p);
        assert Collect(b, p).Key() == k;
      }
    }
  }

  lemma CollectedPending(b: Cache, c: Cache, full: seq<HostPlacement>, p: HostPlacement)
    requires p in full
    ensures Collect(b, p) in Pending(c, Collected(b, full)) <==> p in Pending(c, full)
  {
    CollectedHas(b, full, p);
  }

  lemma CollectedBetter(b: Cache, c: Cache, c': Cache, full: seq<HostPlacement>, live: set<SourceKey>)
    requires Better(c, c', Collected(b, full), live)
    ensures Better(c, c', full, live)
  {
    var list := Collected(b, full);
    CollectedStale(b, c, full);
    CollectedStale(b, c', full);
    forall p | p in Pending(c', full) ensures p in Pending(c, full) {
      CollectedPending(b, c', full, p);
      CollectedPending(b, c, full, p);
    }
    if Pending(c', list) != Pending(c, list) {
      var q :| q in Pending(c, list) && q !in Pending(c', list);
      CollectedFrom(b, full, q);
      var p :| p in full && q == Collect(b, p);
      CollectedPending(b, c', full, p);
      CollectedPending(b, c, full, p);
    }
  }

  lemma CollectedSound(b: Cache, c: Cache, full: seq<HostPlacement>, p: HostPlacement)
    requires p in full
    ensures Sound(c, Collected(b, full), Collect(b, p)) <==> Sound(c, full, p)
  {
    var list := Collected(b, full);
    if Secured(c, full, p) {
      var a :| a in full && a.HostId() == p.HostId() && Held(c, a);
      CollectedHas(b, full, a);
      assert Held(c, Collect(b, a));
    }
    if Secured(c, list, p) {
      var q :| q in list && q.HostId() == p.HostId() && Held(c, q);
      CollectedFrom(b, full, q);
      var a :| a in full && q == Collect(b, a);
      assert Held(c, a);
    }
    assert Secured(c, list, p) <==> Secured(c, list, Collect(b, p));
  }

  // --- One call of the loop ---

  /** What one call does, stated for the cache `b` that was prepared and the list that was collected. */
  lemma CallOnCollected(ident: Ident, c: Cache, b: Cache, full: seq<HostPlacement>, list: seq<HostPlacement>,
                        live: set<SourceKey>, o: Outcome)
    requires list == Collected(c, full) && Coherent(ident, list, live) && Faithful(ident, b) && b.replay
    requires o == Incremental(b, list, live, None)
    ensures Faithful(ident, o.cache)
    ensures o.incomplete ==> o.commands != [] && o.cache.replay && Better(b, o.cache, full, live)
                             && Replays(b, o.cache, o.commands)
    ensures !o.incomplete ==> !o.cache.replay && DeadSources(o.cache, live) == {} && StaleKeys(o.cache, full) == {}
    ensures !o.incomplete ==> forall q :: q in list && q.Visible() && q.data != [] ==> o.cache.Current(q)
  {
    var last := IncrementalDrains(ident, b, list, live, None, o);
    if o.incomplete {
      CollectedBetter(c, b, last, full, live);
    } else {
      CollectedStale(c, last, full);
      forall q | q in list && q.Visible() && q.data != [] ensures o.cache.Current(q) {
        assert Done(last, q, None);
      }
    }
  }

  lemma PreparedFields(c: Cache, view: Option<View>, b: Cache)
    requires b == Prepared(c, view)
    ensures b == c.(view := view, continuation := b.continuation, replay := true, replayed := b.replayed)
    ensures c.replay ==> b.replayed == c.replayed
  {
  }

  /** Preparing a call changes nothing that is shown. */
  lemma PreparedFrame(ident: Ident, c: Cache, view: Option<View>, b: Cache)
    requires b == Prepared(c, view) && Faithful(ident, c)
    ensures b.images == c.images && b.placements == c.placements && b.sources == c.sources
    ensures b.replay && (c.replay ==> b.replayed == c.replayed)
    ensures Faithful(ident, b)
  {
    PreparedFields(c, view, b);
    FrameFaithful(ident, c, b);
  }

  lemma PreparedNoWorse(c: Cache, view: Option<View>, full: seq<HostPlacement>, live: set<SourceKey>)
    requires c.replay
    ensures NoWorse(c, Prepared(c, view), full, live)
  {
    var b := Prepared(c, view);
    PreparedFields(c, view, b);
    FrameNoWorse(c, b, full, live);
  }

  /** A call that does not complete emits something and leaves strictly less work; a complete one leaves nothing
      unwanted. */
  lemma PaintCallShrinks(ident: Ident, c: Cache, full: seq<HostPlacement>, live: set<SourceKey>, view: Option<View>,
                         o: Outcome)
    requires Coherent(ident, full, live) && Faithful(ident, c) && o == PaintCall(c, full, live, view)
    ensures Faithful(ident, o.cache) && o.cache.replay == o.incomplete
    ensures o.incomplete ==>
              && o.commands != [] && Work(Prepared(o.cache, view), full, live) < Work(Prepared(c, view), full, live)
              && Prepared(o.cache, view).replayed <= Prepared(c, view).replayed + Displayed(o.commands)
    ensures !o.incomplete ==> DeadSources(o.cache, live) == {} && StaleKeys(o.cache, full) == {}
  {
    var b := Prepared(c, view);
    CollectedCoherent(ident, c, full, live);
    PreparedFrame(ident, c, view, b);
    CallOnCollected(ident, c, b, full, Collected(c, full), live, o);
    if o.incomplete {
      var next := Prepared(o.cache, view);
      PreparedFrame(ident, o.cache, view, next);
      PreparedNoWorse(o.cache, view, full, live);
      BetterTrans(b, o.cache, next, full, live);
      WorkShrinks(b, next, full, live);
    }
  }

  lemma PreparedSynced(fp: Fingerprint, ident: Ident, c: Cache, t: Terminal, lost: set<Key>, view: Option<View>)
    requires Synced(fp, ident, c, t, lost)
    ensures Synced(fp, ident, Prepared(c, view), t, lost)
  {
    var b := Prepared(c, view);
    PreparedFields(c, view, b);
    SyncedFrame(fp, ident, c, b, t, lost);
  }

  lemma PaintCallSynced(fp: Fingerprint, ident: Ident, c: Cache, t: Terminal, lost: set<Key>, full: seq<HostPlacement>,
                        live: set<SourceKey>, view: Option<View>, o: Outcome)
    requires Synced(fp, ident, c, t, lost) && Wellformed(fp, ident, full) && o == PaintCall(c, full, live, view)
    ensures SyncedAfter(fp, ident, o.cache, t, lost, o.commands)
  {
    CollectedWellformed(fp, ident, c, full);
    PreparedSynced(fp, ident, c, t, lost, view);
    IncrementalSynced(fp, ident, Prepared(c, view), t, lost, Collected(c, full), live, None);
  }

  // --- The loop ---

  /** A painted frame: the cache in which the call that completed it was made, the cache that it left, and everything
      that was sent. */
  datatype Frame = Frame(last: Cache, end: Cache, commands: seq<Command>)

  ghost function Paint(ident: Ident, c: Cache, full: seq<HostPlacement>, live: set<SourceKey>, view: Option<View>)
      : Frame
    requires Coherent(ident, full, live) && Faithful(ident, c)
    decreases Work(Prepared(c, view), full, live)
  {
    var o := PaintCall(c, full, live, view);
    PaintCallShrinks(ident, c, full, live, view, o);
    if !o.incomplete then Frame(c, o.cache, o.commands)
    else
      var rest := Paint(ident, o.cache, full, live, view);
      rest.(commands := o.commands + rest.commands)
  }

  lemma PaintUnfolds(ident: Ident, c: Cache, full: seq<HostPlacement>, live: set<SourceKey>, view: Option<View>,
                     o: Outcome)
    requires Coherent(ident, full, live) && Faithful(ident, c) && o == PaintCall(c, full, live, view)
    ensures Faithful(ident, o.cache)
    ensures o.incomplete ==> Work(Prepared(o.cache, view), full, live) < Work(Prepared(c, view), full, live)
    ensures Paint(ident, c, full, live, view)
            == if !o.incomplete then Frame(c, o.cache, o.commands)
               else var rest := Paint(ident, o.cache, full, live, view); rest.(commands := o.commands + rest.commands)
  {
    PaintCallShrinks(ident, c, full, live, view, o);
  }

  /** A painted frame ends with a complete call, in step with the terminal, and with nothing unwanted left. */
  lemma {:induction false} PaintSettles(fp: Fingerprint, ident: Ident, c: Cache, t: Terminal, lost: set<Key>,
                                        full: seq<HostPlacement>, live: set<SourceKey>, view: Option<View>)
    requires Coherent(ident, full, live) && Synced(fp, ident, c, t, lost) && Wellformed(fp, ident, full)
    ensures var f := Paint(ident, c, full, live, view);
            && SyncedAfter(fp, ident, f.end, t, lost, f.commands)
            && DeadSources(f.end, live) == {} && StaleKeys(f.end, full) == {}
            && Grounded(f.last) && Faithful(ident, f.last)
            && f.end == PaintCall(f.last, full, live, view).cache && !PaintCall(f.last, full, live, view).incomplete
    decreases Work(Prepared(c, view), full, live)
  {
    var o := PaintCall(c, full, live, view);
    PaintUnfolds(ident, c, full, live, view, o);
    PaintCallShrinks(ident, c, full, live, view, o);
    PaintCallSynced(fp, ident, c, t, lost, full, live, view, o);
    if o.incomplete {
      PaintSettles(fp, ident, o.cache, Interpret(t, o.commands), lost - Displayed(o.commands), full, live, view);
      var f := Paint(ident, o.cache, full, live, view);
      SyncedTrans(fp, ident, f.end, t, lost, o.commands, f.commands);
    }
  }

  /** Collecting leaves everything but the data of an entry. */
  lemma CollectSame(b: Cache, c: Cache, p: HostPlacement, q: HostPlacement)
    requires q == Collect(b, p)
    ensures q.HostId() == p.HostId() && q.Visible() == p.Visible()
    ensures c.ImageCurrent(q) == c.ImageCurrent(p) && c.Current(q) == c.Current(p)
    ensures Quarantined(c, q, None) == Quarantined(c, p, None) == false
    ensures !b.ImageCurrent(p) ==> q == p
  {
  }

  lemma CallMisses(ident: Ident, c: Cache, b: Cache, full: seq<HostPlacement>, list: seq<HostPlacement>,
                   live: set<SourceKey>, o: Outcome, p: HostPlacement, q: HostPlacement)
    requires list == Collected(c, full) && Coherent(ident, list, live) && Faithful(ident, b) && Grounded(b) && b.replay
    requires b.images == c.images && o == Incremental(b, list, live, None) && !o.incomplete
    requires q == Collect(c, p) && q in list && p.Visible() && p.data != []
    ensures o.cache.Current(p) <==> !(c.ImageCurrent(p) && Abandoned(b, list, live, None, p.HostId()))
  {
    CollectSame(c, b, p, q);
    CollectSame(c, o.cache, p, q);
    if c.ImageCurrent(p) {
      MissedExactly(ident, b, list, live, None, o, q);
    } else {
      CallOnCollected(ident, c, b, full, list, live, o);
    }
  }

  /** An entry with data is missed by a painted frame exactly when its image was there before the call that completed
      the frame, and that call abandoned it. */
  lemma PaintMisses(fp: Fingerprint, ident: Ident, c: Cache, t: Terminal, lost: set<Key>, full: seq<HostPlacement>,
                    live: set<SourceKey>, view: Option<View>, p: HostPlacement)
    requires Coherent(ident, full, live) && Synced(fp, ident, c, t, lost) && Wellformed(fp, ident, full)
    requires p in full && p.Visible() && p.data != []
    ensures var f := Paint(ident, c, full, live, view);
            f.end.Current(p) <==> !(f.last.ImageCurrent(p)
                                    && Abandoned(Prepared(f.last, view), Collected(f.last, full), live, None,
                                                 p.HostId()))
  {
    PaintSettles(fp, ident, c, t, lost, full, live, view);
    var f := Paint(ident, c, full, live, view);
    CollectedCoherent(ident, f.last, full, live);
    CollectedHas(f.last, full, p);
    PreparedFrame(ident, f.last, view, Prepared(f.last, view));
    CallMisses(ident, f.last, Prepared(f.last, view), full, Collected(f.last, full), live,
               PaintCall(f.last, full, live, view),
               p, Collect(f.last, p));
  }

  // --- Frames that miss nothing ---

  /** Every visible entry carries its data. */
  ghost predicate Furnished(full: seq<HostPlacement>) {
    forall p :: p in full && p.Visible() ==> p.data != []
  }

  ghost predicate AllSound(c: Cache, full: seq<HostPlacement>) {
    forall p {:trigger Sound(c, full, p)} :: p in full && p.Visible() ==> Sound(c, full, p)
  }

  /** What one call does to one entry `p`, which is collected as `q`. */
  lemma CallOnEntry(ident: Ident, c: Cache, b: Cache, full: seq<HostPlacement>, list: seq<HostPlacement>,
                    live: set<SourceKey>, o: Outcome, p: HostPlacement, q: HostPlacement)
    requires list == Collected(c, full) && Coherent(ident, list, live) && Faithful(ident, b) && b.replay
    requires b.images == c.images && b.sources == c.sources && o == Incremental(b, list, live, None)
    requires p in full && q == Collect(c, p) && q in list && p.Visible()
    ensures Sound(c, full, p) || !o.incomplete ==> Sound(o.cache, full, p)
    ensures Sound(c, full, p) && p.data != [] && !o.incomplete ==>
              o.cache.Current(p) && p.Key() in b.replayed + Displayed(o.commands)
  {
    ResumeSound(c, b, full, p);
    CollectedSound(c, b, full, p);
    CollectedSound(c, o.cache, full, p);
    CallSound(ident, b, list, live, o, q);
    if Sound(c, full, p) && p.data != [] { CallSupplied(ident, b, list, live, None, o, q); }
  }

  lemma PaintCallSound(ident: Ident, c: Cache, full: seq<HostPlacement>, live: set<SourceKey>, view: Option<View>,
                       o: Outcome)
    requires Coherent(ident, full, live) && Faithful(ident, c) && o == PaintCall(c, full, live, view)
    ensures AllSound(c, full) || !o.incomplete ==> AllSound(o.cache, full)
  {
    forall p | p in full && p.Visible() && (AllSound(c, full) || !o.incomplete) ensures Sound(o.cache, full, p) {
      PaintCallShows(ident, c, full, live, view, o, p);
    }
  }

  /** A complete call makes an entry sound. If it was sound before, it is shown, and was displayed. */
  lemma PaintCallShows(ident: Ident, c: Cache, full: seq<HostPlacement>, live: set<SourceKey>, view: Option<View>,
                       o: Outcome, p: HostPlacement)
    requires Coherent(ident, full, live) && Faithful(ident, c) && o == PaintCall(c, full, live, view)
    requires p in full && p.Visible()
    ensures Sound(c, full, p) || !o.incomplete ==> Sound(o.cache, full, p)
    ensures Sound(c, full, p) && p.data != [] && !o.incomplete ==>
              o.cache.Current(p) && p.Key() in Prepared(c, view).replayed + Displayed(o.commands)
  {
    CollectedCoherent(ident, c, full, live);
    CollectedHas(c, full, p);
    PreparedFrame(ident, c, view, Prepared(c, view));
    CallOnEntry(ident, c, Prepared(c, view), full, Collected(c, full), live, o, p, Collect(c, p));
  }

  lemma {:induction false} PaintDisplays(ident: Ident, c: Cache, full: seq<HostPlacement>, live: set<SourceKey>,
                                         view: Option<View>)
    requires Coherent(ident, full, live) && Faithful(ident, c) && Furnished(full)
    ensures var f := Paint(ident, c, full, live, view);
            && AllSound(f.end, full)
            && (AllSound(c, full) ==> forall p :: p in full && p.Visible() ==>
                  f.end.Current(p) && p.Key() in Prepared(c, view).replayed + Displayed(f.commands))
    decreases Work(Prepared(c, view), full, live)
  {
    var o := PaintCall(c, full, live, view);
    PaintUnfolds(ident, c, full, live, view, o);
    PaintCallSound(ident, c, full, live, view, o);
    if o.incomplete {
      PaintDisplays(ident, o.cache, full, live, view);
      PaintCallShrinks(ident, c, full, live, view, o);
      var f := Paint(ident, o.cache, full, live, view);
      DisplayedConcat(o.commands, f.commands);
    } else if AllSound(c, full) {
      forall p | p in full && p.Visible()
        ensures o.cache.Current(p) && p.Key() in Prepared(c, view).replayed + Displayed(o.commands)
      {
        PaintCallShows(ident, c, full, live, view, o, p);
      }
    }
  }

  /** A replay that begins counts nothing as displayed. */
  lemma Afresh(c: Cache, view: Option<View>)
    requires !c.replay
    ensures Prepared(c, view).replayed == {}
  {
  }

  lemma PaintDisplaysAfresh(ident: Ident, c: Cache, full: seq<HostPlacement>, live: set<SourceKey>, view: Option<View>)
    requires Coherent(ident, full, live) && Faithful(ident, c) && Furnished(full) && AllSound(c, full) && !c.replay
    ensures var f := Paint(ident, c, full, live, view);
            forall p :: p in full && p.Visible() ==> f.end.Current(p) && p.Key() in Displayed(f.commands)
  {
    PaintDisplays(ident, c, full, live, view);
    Afresh(c, view);
  }

  /** From a sound cache, a painted frame shows every entry, and puts back whatever text had painted over: the terminal
      ends with exactly the images and placements of the cache. */
  lemma PaintRestores(fp: Fingerprint, ident: Ident, c: Cache, t: Terminal, lost: set<Key>, full: seq<HostPlacement>,
                      live: set<SourceKey>, view: Option<View>)
    requires Coherent(ident, full, live) && Synced(fp, ident, c, t, lost) && Wellformed(fp, ident, full)
    requires Furnished(full) && AllSound(c, full) && !c.replay
    ensures var f := Paint(ident, c, full, live, view);
            && (forall p :: p in full && p.Visible() ==> f.end.Current(p))
            && Mirrors(fp, f.end, Interpret(t, f.commands), {})
  {
    PaintSettles(fp, ident, c, t, lost, full, live, view);
    PaintDisplaysAfresh(ident, c, full, live, view);
    var f := Paint(ident, c, full, live, view);
    TidyKeys(f.end, full, Displayed(f.commands));
    NothingLost(fp, f.end, Interpret(t, f.commands), lost, Displayed(f.commands));
  }

  lemma TidyKeys(c: Cache, full: seq<HostPlacement>, shown: set<Key>)
    requires StaleKeys(c, full) == {} && forall p :: p in full && p.Visible() ==> p.Key() in shown
    ensures c.placements.Keys <= shown
  {
    forall k | k in c.placements ensures k in shown {
      assert k !in StaleKeys(c, full);
    }
  }

  lemma NothingLost(fp: Fingerprint, c: Cache, t: Terminal, lost: set<Key>, shown: set<Key>)
    requires Mirrors(fp, c, t, lost - shown) && c.placements.Keys <= shown
    ensures Mirrors(fp, c, t, {})
  {
    assert c.placements.Keys - (lost - shown) == c.placements.Keys - {};
  }

  /** A painted frame leaves the replay done. */
  lemma {:induction false} PaintEndsReplay(ident: Ident, c: Cache, full: seq<HostPlacement>, live: set<SourceKey>,
                                           view: Option<View>)
    requires Coherent(ident, full, live) && Faithful(ident, c)
    ensures !Paint(ident, c, full, live, view).end.replay
    decreases Work(Prepared(c, view), full, live)
  {
    var o := PaintCall(c, full, live, view);
    PaintUnfolds(ident, c, full, live, view, o);
    PaintCallShrinks(ident, c, full, live, view, o);
    if o.incomplete { PaintEndsReplay(ident, o.cache, full, live, view); }
  }

  /** Whatever a frame missed, painting the same entries once more shows, whatever text did in between. */
  lemma NextPaintRepairs(fp: Fingerprint, ident: Ident, c: Cache, t: Terminal, lost: set<Key>, full: seq<HostPlacement>,
                         live: set<SourceKey>, view: Option<View>, painted: set<Key>)
    requires Coherent(ident, full, live) && Synced(fp, ident, c, t, lost) && Wellformed(fp, ident, full)
             && Furnished(full)
    ensures var f := Paint(ident, c, full, live, view);
            var between := Interpret(t, f.commands);
            var blitted := between.(placements := between.placements - painted);
            && Faithful(ident, f.end)
            && var g := Paint(ident, f.end, full, live, view);
               && (forall p :: p in full && p.Visible() ==> g.end.Current(p))
               && Mirrors(fp, g.end, Interpret(blitted, g.commands), {})
  {
    PaintSettles(fp, ident, c, t, lost, full, live, view);
    PaintDisplays(ident, c, full, live, view);
    PaintEndsReplay(ident, c, full, live, view);
    var f := Paint(ident, c, full, live, view);
    var between := Interpret(t, f.commands);
    var blitted := between.(placements := between.placements - painted);
    PaintRestores(fp, ident, f.end, blitted, lost - Displayed(f.commands) + painted, full, live, view);
  }
}
