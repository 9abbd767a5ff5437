// Every step of the paging protocol keeps its invariant, part by part.
module SuvmSteps {
  import opened Options
  import opened SuvmMachine

  // ---- bucket locks ----

  lemma LockNeutral(c: Config, th: map<nat, Thread>, lock: map<int, nat>, t: nat, x: Thread)
    requires c.nbuckets > 0 && LocksOk(c, th, lock) && t in th && LockedPage(x) == LockedPage(th[t])
    ensures LocksOk(c, th[t := x], lock)
  {
    forall u | u in th ensures LockHeld(c, th[t := x], lock, u) {
      assert LockHeld(c, th, lock, u);
    }
  }

  lemma LockTaken(c: Config, th: map<nat, Thread>, lock: map<int, nat>, t: nat, x: Thread, p: int)
    requires c.nbuckets > 0 && LocksOk(c, th, lock) && t in th
    requires LockedPage(th[t]) == None && LockedPage(x) == Some(p) && Bucket(c, p) !in lock
    ensures LocksOk(c, th[t := x], lock[Bucket(c, p) := t])
  {
    forall u | u in th ensures LockHeld(c, th[t := x], lock[Bucket(c, p) := t], u) {
      assert LockHeld(c, th, lock, u);
    }
  }

  lemma LockGiven(c: Config, th: map<nat, Thread>, lock: map<int, nat>, t: nat, x: Thread, p: int)
    requires c.nbuckets > 0 && LocksOk(c, th, lock) && t in th
    requires LockedPage(th[t]) == Some(p) && LockedPage(x) == None
    ensures LocksOk(c, th[t := x], lock - {Bucket(c, p)})
  {
    assert LockHeld(c, th, lock, t);
    forall u | u in th ensures LockHeld(c, th[t := x], lock - {Bucket(c, p)}, u) {
      assert LockHeld(c, th, lock, u);
    }
  }

  // ---- queue entries ----

  lemma PlaceNeutral(th: map<nat, Thread>, queue: seq<int>, loc: map<int, Place>, t: nat, x: Thread)
    requires PlacesOk(th, queue, loc) && t in th && PageInHand(x) == PageInHand(th[t])
    ensures PlacesOk(th[t := x], queue, loc)
  {
  }

  lemma PlaceTaken(th: map<nat, Thread>, queue: seq<int>, loc: map<int, Place>, t: nat, x: Thread)
    requires PlacesOk(th, queue, loc) && t in th && queue != []
    requires PageInHand(th[t]) == None && PageInHand(x) == Some(queue[0])
    ensures queue[0] in loc
    ensures PlacesOk(th[t := x], queue[1..], loc[queue[0] := InHand(t)])
  {
  }

  lemma PlacePut(th: map<nat, Thread>, queue: seq<int>, loc: map<int, Place>, t: nat, x: Thread, p: int)
    requires PlacesOk(th, queue, loc) && t in th
    requires PageInHand(th[t]) == Some(p) && PageInHand(x) == None
    ensures p in loc
    ensures PlacesOk(th[t := x], queue + [p], loc[p := Queued])
  {
  }

  lemma PlaceDropped(th: map<nat, Thread>, queue: seq<int>, loc: map<int, Place>, t: nat, x: Thread, p: int)
    requires PlacesOk(th, queue, loc) && t in th
    requires PageInHand(th[t]) == Some(p) && PageInHand(x) == None
    ensures PlacesOk(th[t := x], queue, loc - {p})
  {
  }

  lemma PlaceAdded(th: map<nat, Thread>, queue: seq<int>, loc: map<int, Place>, t: nat, x: Thread, p: int)
    requires PlacesOk(th, queue, loc) && t in th && p !in loc
    requires PageInHand(th[t]) == None && PageInHand(x) == Some(p)
    ensures PlacesOk(th[t := x], queue, loc[p := InHand(t)])
  {
  }

  // ---- frames ----

  lemma FrameNeutral(th: map<nat, Thread>, free: seq<nat>, own: map<nat, FrameOwner>, cache: map<int, nat>, t: nat,
    x: Thread)
    requires FramesOk(th, free, own, cache) && t in th && FrameInHand(x) == FrameInHand(th[t])
    ensures FramesOk(th[t := x], free, own, cache)
  {
  }

  lemma FramePushed(th: map<nat, Thread>, free: seq<nat>, own: map<nat, FrameOwner>, cache: map<int, nat>, t: nat,
    x: Thread, f: nat)
    requires FramesOk(th, free, own, cache) && t in th
    requires FrameInHand(th[t]) == Some(f) && FrameInHand(x) == None
    ensures f in own && !own[f].Caching?
    ensures FramesOk(th[t := x], free + [f], own[f := Free], cache)
  {
  }

  lemma FramePopped(th: map<nat, Thread>, free: seq<nat>, own: map<nat, FrameOwner>, cache: map<int, nat>, t: nat,
    x: Thread)
    requires FramesOk(th, free, own, cache) && t in th && free != []
    requires FrameInHand(th[t]) == None && FrameInHand(x) == Some(free[|free| - 1])
    ensures free[|free| - 1] in own && !own[free[|free| - 1]].Caching?
    ensures FramesOk(th[t := x], free[..|free| - 1], own[free[|free| - 1] := HeldBy(t)], cache)
  {
  }

  lemma FrameCached(th: map<nat, Thread>, free: seq<nat>, own: map<nat, FrameOwner>, cache: map<int, nat>, t: nat,
    x: Thread, f: nat, p: int)
    requires FramesOk(th, free, own, cache) && t in th && p !in cache
    requires FrameInHand(th[t]) == Some(f) && FrameInHand(x) == None
    ensures f in own
    ensures FramesOk(th[t := x], free, own[f := Caching(p)], cache[p := f])
  {
  }

  lemma FrameUncached(th: map<nat, Thread>, free: seq<nat>, own: map<nat, FrameOwner>, cache: map<int, nat>, t: nat,
    x: Thread, f: nat, p: int)
    requires FramesOk(th, free, own, cache) && t in th && p in cache && cache[p] == f
    requires FrameInHand(th[t]) == None && FrameInHand(x) == Some(f)
    ensures f in own
    ensures FramesOk(th[t := x], free, own[f := HeldBy(t)], cache - {p})
  {
  }

  // ---- counting threads ----

  lemma WithStep(th: map<nat, Thread>, t: nat, x: Thread, kind: Pc -> bool)
    requires t in th
    ensures |With(th[t := x], kind)| ==
      |With(th, kind)| - (if kind(th[t].pc) then 1 else 0) + (if kind(x.pc) then 1 else 0)
  {
    var w, w' := With(th, kind), With(th[t := x], kind);
    if kind(x.pc) {
      assert w' == w + {t};
    } else {
      assert w' == w - {t};
    }
  }

  lemma WithSteps(th: map<nat, Thread>, t: nat, x: Thread)
    requires t in th
    ensures |With(th[t := x], HoldsFrame)| ==
      |With(th, HoldsFrame)| - (if HoldsFrame(th[t].pc) then 1 else 0) + (if HoldsFrame(x.pc) then 1 else 0)
    ensures |With(th[t := x], HoldsPage)| ==
      |With(th, HoldsPage)| - (if HoldsPage(th[t].pc) then 1 else 0) + (if HoldsPage(x.pc) then 1 else 0)
    ensures |With(th[t := x], WillPop)| ==
      |With(th, WillPop)| - (if WillPop(th[t].pc) then 1 else 0) + (if WillPop(x.pc) then 1 else 0)
    ensures |With(th[t := x], WillDequeue)| ==
      |With(th, WillDequeue)| - (if WillDequeue(th[t].pc) then 1 else 0) + (if WillDequeue(x.pc) then 1 else 0)
  {
    WithStep(th, t, x, HoldsFrame);
    WithStep(th, t, x, HoldsPage);
    WithStep(th, t, x, WillPop);
    WithStep(th, t, x, WillDequeue);
  }

  lemma DisjointSize(a: set<nat>, b: set<nat>, d: set<nat>, e: set<nat>, all: set<nat>)
    requires a !! b && a !! d && a !! e && b !! d && b !! e && d !! e
    requires a <= all && b <= all && d <= all && e <= all
    ensures |a| + |b| + |d| + |e| <= |all|
  {
    assert |a + b| == |a| + |b| && |a + b + d| == |a + b| + |d| && |a + b + d + e| == |a + b + d| + |e|;
    SubsetSize(a + b + d + e, all);
  }

  lemma Separate(th: map<nat, Thread>, k: Pc -> bool, l: Pc -> bool)
    requires forall pc :: !(k(pc) && l(pc))
    ensures With(th, k) !! With(th, l)
  {
  }

  /** The four classes are disjoint, so together they are at most all threads
      but one that is in none of them. */
  lemma ClassesFit(th: map<nat, Thread>, t: nat)
    requires t in th && th[t].pc.AtTest?
    ensures |With(th, HoldsFrame)| + |With(th, HoldsPage)| + |With(th, WillPop)| + |With(th, WillDequeue)|
         <= |th.Keys| - 1
  {
    var a, b, d, e := With(th, HoldsFrame), With(th, HoldsPage), With(th, WillPop), With(th, WillDequeue);
    assert a <= th.Keys - {t} && b <= th.Keys - {t} && d <= th.Keys - {t} && e <= th.Keys - {t};
    hide With;
    Separate(th, HoldsFrame, HoldsPage);
    Separate(th, HoldsFrame, WillPop);
    Separate(th, HoldsFrame, WillDequeue);
    Separate(th, HoldsPage, WillPop);
    Separate(th, HoldsPage, WillDequeue);
    Separate(th, WillPop, WillDequeue);
    DisjointSize(a, b, d, e, th.Keys - {t});
  }

  lemma {:induction false} SubsetSize(a: set<nat>, b: set<nat>)
    requires a <= b
    ensures |a| <= |b|
  {
    if a != {} {
      var x :| x in a;
      SubsetSize(a - {x}, b - {x});
    }
  }


  function One(b: bool): nat { if b then 1 else 0 }

  /** A step that moves one thread from class to class keeps the counts when
      the lists and the size counter move with it. */
  lemma CountsMove(c: Config, th: map<nat, Thread>, t: nat, x: Thread,
                   free: nat, size: int, queue: nat, free': nat, size': int, queue': nat)
    requires t in th && CountsOk(c, th, free, size, queue)
    requires free' + size' + One(HoldsFrame(x.pc)) == free + size + One(HoldsFrame(th[t].pc))
    requires size' - queue' - One(HoldsPage(x.pc)) == size - queue - One(HoldsPage(th[t].pc))
    requires free' - One(WillPop(x.pc)) >= free - One(WillPop(th[t].pc))
    requires queue' - One(WillDequeue(x.pc)) >= queue - One(WillDequeue(th[t].pc))
    ensures CountsOk(c, th[t := x], free', size', queue')
  {
    hide With;
    WithSteps(th, t, x);
  }

  /** The test of the size reserves a free frame or a queued page. */
  lemma CountsTest(c: Config, th: map<nat, Thread>, t: nat, x: Thread, free: nat, size: int, queue: nat)
    requires Fit(c) && th.Keys == c.threads && t in th && th[t].pc.AtTest? && CountsOk(c, th, free, size, queue)
    requires x.pc == if size >= c.cap - c.slack then AtDequeue else AtPop
    ensures CountsOk(c, th[t := x], free, size, queue)
  {
    hide With;
    WithSteps(th, t, x);
    ClassesFit(th, t);
  }

  lemma ThreadsAre(c: Config, s: State)
    requires Contents(c, s)
    ensures s.threads.Keys == c.threads
  {
  }
}
