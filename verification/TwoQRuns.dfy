/**
  The 2Q replacer over any run of calls, up to the first call whose assertions fail.
  Source: task-slotted-pages/src/buffer/2Q_replacer.cc:9-100.
  */
module TwoQRuns {
  import opened Collections
  import opened TwoQReplacers

  datatype Call = Pin(frame: Frame) | Unpin(frame: Frame) | Victim

  // ---------- the calls on the reference ----------

  /** The frames that have come in and have not been evicted since. */
  ghost function Known(h: seq<Event>): set<Frame> {
    set e | e in h && !StatusOf(h, e.frame).Absent? :: e.frame
  }

  /** The assertions at 2Q_replacer.cc:13, 49, 70 and 75. */
  ghost predicate Allowed(numPages: nat, h: seq<Event>, c: Call) {
    match c
    case Pin(f) => f <= numPages
    case Unpin(f) => f <= numPages && (f in Known(h) || |Known(h)| < numPages)
    case Victim => Known(h) != {}
  }

  /** The frame to go, if there is one. */
  ghost function Chosen(h: seq<Event>): (r: Option<Frame>)
    ensures r.Some? ==> Oldest(h, r.value)
  {
    if f: Frame :| Oldest(h, f) then Some(f) else None
  }

  ghost function Effect(h: seq<Event>, c: Call): seq<Event> {
    match c
    case Pin(f) => h + [Pinned(f)]
    case Unpin(f) => h + [Unpinned(f)]
    case Victim => if Chosen(h).Some? then h + [Evicted(Chosen(h).value)] else h
  }

  ghost function After(numPages: nat, h: seq<Event>, calls: seq<Call>): seq<Event>
    decreases |calls|
  {
    if calls == [] || !Allowed(numPages, h, calls[0]) then h
    else After(numPages, Effect(h, calls[0]), calls[1..])
  }

  ghost function AllowedPrefix(numPages: nat, h: seq<Event>, calls: seq<Call>): nat
    decreases |calls|
  {
    if calls == [] || !Allowed(numPages, h, calls[0]) then 0
    else 1 + AllowedPrefix(numPages, Effect(h, calls[0]), calls[1..])
  }

  /** What the calls of Victim answer. */
  ghost function Answers(numPages: nat, h: seq<Event>, calls: seq<Call>): seq<Option<Frame>>
    decreases |calls|
  {
    if calls == [] || !Allowed(numPages, h, calls[0]) then []
    else (if calls[0].Victim? then [Chosen(h)] else []) + Answers(numPages, Effect(h, calls[0]), calls[1..])
  }

  /** At most one frame is the one to go. */
  lemma OneOldest(h: seq<Event>, f: Frame, g: Frame)
    requires Oldest(h, f) && Oldest(h, g)
    ensures f == g
  {
  }

  lemma {:induction false} Mentioned(h: seq<Event>, f: Frame)
    requires !StatusOf(h, f).Absent?
    ensures exists e :: e in h && e.frame == f
  {
    var now := |h| - 1;
    if h[now].frame != f {
      Mentioned(h[..now], f);
    } else {
      assert h[now] in h;
    }
  }

  lemma TableIsKnown(ht: map<Frame, Hotness>, h: seq<Event>)
    requires Indexes(ht, h)
    ensures ht.Keys == Known(h) && |ht| == |Known(h)|
  {
    forall f | f in ht ensures f in Known(h) {
      Mentioned(h, f);
    }
    assert ht.Keys == Known(h);
  }

  lemma NoneLeft(ht: map<Frame, Hotness>, h: seq<Event>)
    requires Indexes(ht, h) && !Has(ht, COLD) && !Has(ht, HOT)
    ensures Chosen(h) == None
  {
  }

  // ---------- the replacer does what the reference says ----------

  /** An assertion of the call fails, as the hash table shows. */
  predicate Fails(numPages: nat, ht: map<Frame, Hotness>, c: Call) {
    match c
    case Pin(f) => numPages < f
    case Unpin(f) => numPages < f || (f !in ht && |ht| >= numPages)
    case Victim => ht == map[]
  }

  method Issue(r: TwoQReplacer, c: Call) returns (ok: bool, answer: seq<Option<Frame>>)
    requires r.Valid()
    modifies r
    ensures r.Valid()
    ensures ok == Allowed(r.numPages, old(r.history), c)
    ensures r.history == if ok then Effect(old(r.history), c) else old(r.history)
    ensures answer == if ok && c.Victim? then [Chosen(old(r.history))] else []
    ensures !ok ==> Fails(r.numPages, r.ht, c)
  {
    ghost var h := r.history;
    TableIsKnown(r.ht, h);
    answer := [];
    match c
    case Pin(f) =>
      ok := f <= r.numPages;
      if ok {
        r.Pin(f);
      }
    case Unpin(f) =>
      ok := f <= r.numPages && (f in r.ht || |r.ht| < r.numPages);
      if ok {
        r.Unpin(f);
      }
    case Victim =>
      ok := r.ht != map[];
      if ok {
        ghost var ht := r.ht;
        var v := r.Victim();
        if v.Some? {
          OneOldest(h, v.value, Chosen(h).value);
        } else {
          NoneLeft(ht, h);
        }
        answer := [v];
      }
  }

  /** In any run of calls the replacer evicts what the reference names, and stops at the first failing assertion. */
  method Issues(r: TwoQReplacer, calls: seq<Call>) returns (done: nat, answers: seq<Option<Frame>>)
    requires r.Valid()
    modifies r
    ensures r.Valid()
    ensures done == AllowedPrefix(r.numPages, old(r.history), calls)
    ensures r.history == After(r.numPages, old(r.history), calls)
    ensures answers == Answers(r.numPages, old(r.history), calls)
    ensures done < |calls| ==>
              match calls[done]
              case Pin(f) => r.numPages < f
              case Unpin(f) => r.numPages < f || (f !in r.ht && |r.ht| >= r.numPages)
              case Victim => r.ht == map[]
  {
    hide Allowed, Effect, Chosen, Ordered, Indexes, Sizes;
    ghost var n, h := r.numPages, r.history;
    done, answers := 0, [];
    var ok := true;
    while ok && done < |calls|
      invariant done <= |calls| && r.Valid()
      invariant After(n, h, calls) == After(n, r.history, calls[done..])
      invariant AllowedPrefix(n, h, calls) == done + AllowedPrefix(n, r.history, calls[done..])
      invariant Answers(n, h, calls) == answers + Answers(n, r.history, calls[done..])
      invariant !ok ==> done < |calls| && !Allowed(n, r.history, calls[done]) && Fails(n, r.ht, calls[done])
      decreases |calls| - done, ok
    {
      assert calls[done..][1..] == calls[done + 1..];
      var answer;
      ok, answer := Issue(r, calls[done]);
      if ok {
        done, answers := done + 1, answers + answer;
      }
    }
  }

  // ---------- what every run keeps ----------

  /** A pinned frame stays where it is, and is no victim, until it is unpinned. */
  lemma {:induction false} PinnedStays(numPages: nat, h: seq<Event>, calls: seq<Call>, f: Frame)
    requires !StatusOf(h, f).Absent? && StatusOf(h, f).pinned && Call.Unpin(f) !in calls
    ensures StatusOf(After(numPages, h, calls), f) == StatusOf(h, f) && Some(f) !in Answers(numPages, h, calls)
    decreases |calls|
  {
    if calls != [] && Allowed(numPages, h, calls[0]) {
      assert calls[0] in calls;
      EffectOn(h, calls[0], f);
      PinnedStays(numPages, Effect(h, calls[0]), calls[1..], f);
    }
  }

  lemma EffectOn(h: seq<Event>, c: Call, f: Frame)
    requires !StatusOf(h, f).Absent? && StatusOf(h, f).pinned && c != Call.Unpin(f)
    ensures StatusOf(Effect(h, c), f) == StatusOf(h, f) && Chosen(h) != Some(f)
  {
    if Effect(h, c) != h {
      Next(h, Effect(h, c)[|h|], f);
    }
  }

  /** Calls of Victim in a row take the cold frames, oldest first, and then the hot ones, oldest first. */
  lemma {:induction false} DrainsInOrder(numPages: nat, h: seq<Event>, calls: seq<Call>, i: nat, j: nat)
    requires forall c :: c in calls ==> c.Victim?
    requires i < j < |Answers(numPages, h, calls)| && Answers(numPages, h, calls)[j].Some?
    ensures var r := Answers(numPages, h, calls);
            r[i].Some? && Before(StatusOf(h, r[i].value), StatusOf(h, r[j].value))
    decreases |calls|
  {
    Drain(numPages, h, calls);
    Taken(numPages, h, calls, j);
    if i > 0 {
      hide Answers, Chosen, Effect;
      DrainsInOrder(numPages, Effect(h, Victim), calls[1..], i - 1, j - 1);
      Taken(numPages, h, calls, i);
    }
  }

  lemma Drain(numPages: nat, h: seq<Event>, calls: seq<Call>)
    requires forall c :: c in calls ==> c.Victim?
    requires Answers(numPages, h, calls) != []
    ensures calls != [] && forall c :: c in calls[1..] ==> c.Victim?
    ensures Answers(numPages, h, calls) == [Chosen(h)] + Answers(numPages, Effect(h, Victim), calls[1..])
  {
    assert calls[0] in calls;
  }

  /** What such calls take was there and unpinned before, and each takes another frame. */
  lemma {:induction false} Taken(numPages: nat, h: seq<Event>, calls: seq<Call>, j: nat)
    requires forall c :: c in calls ==> c.Victim?
    requires j < |Answers(numPages, h, calls)| && Answers(numPages, h, calls)[j].Some?
    ensures var g := Answers(numPages, h, calls)[j].value;
            && Chosen(h).Some? && Evictable(StatusOf(h, g))
            && (j > 0 ==> g != Chosen(h).value && StatusOf(Effect(h, Victim), g) == StatusOf(h, g))
    decreases |calls|
  {
    Drain(numPages, h, calls);
    if j > 0 {
      Taken(numPages, Effect(h, Victim), calls[1..], j - 1);
      StillThere(h, Answers(numPages, h, calls)[j].value);
    }
  }

  lemma StillThere(h: seq<Event>, g: Frame)
    requires Chosen(Effect(h, Victim)).Some? && Evictable(StatusOf(Effect(h, Victim), g))
    ensures Chosen(h).Some? && g != Chosen(h).value && StatusOf(Effect(h, Victim), g) == StatusOf(h, g)
  {
    if Chosen(h).Some? {
      Next(h, Evicted(Chosen(h).value), g);
    }
  }
}
