/**
  Runs of a slotted page: the page as its users see it (`Records`), what one call makes of it,
  and the in-place page following every run call by call.
  Source: task-slotted-pages/src/slotted_page/slotted_page.cc.
  */
module PageRuns {
  import opened PageLayout
  import opened PageSteps
  import opened SlottedPages

  datatype Records = Records(entries: seq<Entry>, hint: nat, free: nat)

  datatype Call = Alloc(n: nat) | Resize(id: nat, n: nat) | Drop(id: nat)

  /** The last vacant entry after `id`, or the number of entries. */
  function VacantAfter(e: seq<Entry>, id: nat): (r: nat)
    requires id < |e|
    ensures id < r <= |e| && (r < |e| ==> e[r].Vacant?)
    ensures forall j :: id < j < |e| && e[j].Vacant? ==> j <= r < |e|
  {
    if id + 1 == |e| then |e|
    else if e[|e| - 1].Vacant? then |e| - 1
    else
      var r := VacantAfter(e[..|e| - 1], id);
      if r == |e| - 1 then |e| else r
  }

  /** The code's assertions on the call. */
  predicate Allowed(a: Records, c: Call) {
    match c
    case Alloc(n) => 0 < n && a.hint <= |a.entries| && n + (if a.hint == |a.entries| then SLOT else 0) <= a.free
    case Resize(id, n) =>
      && id < |a.entries| && a.entries[id].Live? && 0 < n <= a.free + |a.entries[id].bytes|
      && (a.entries[id].target && n < |a.entries[id].bytes| ==> TID < n)
    case Drop(id) => id < |a.entries| && a.entries[id].Live?
  }

  function Perform(a: Records, c: Call): Records
    requires Allowed(a, c)
  {
    match c
    case Alloc(n) =>
      if a.hint == |a.entries| then
        Records(a.entries + [Live(Zeros(n), false)], a.hint + 1, a.free - n - SLOT)
      else
        var e := a.entries[a.hint := Live(Zeros(n), false)];
        Records(e, VacantAfter(e, a.hint), a.free - n)
    case Resize(id, n) =>
      var b := a.entries[id];
      Records(a.entries[id := Live(Resized(b.bytes, n), b.target && n <= |b.bytes|)], a.hint, a.free + |b.bytes| - n)
    case Drop(id) =>
      var e := Erased(a.entries, id);
      Records(e, if id < a.hint then id else a.hint, a.free + |a.entries[id].bytes| + SLOT * (|a.entries| - |e|))
  }

  ghost function Seen(p: Page, pageSize: nat): Records
    requires PageOk(p, pageSize)
  {
    Records(Entries(p), p.firstFree, p.freeSpace)
  }

  /** How many of the calls are allowed one after the other, and what they leave. */
  function AllowedPrefix(a: Records, calls: seq<Call>): (k: nat)
    ensures k <= |calls|
    decreases |calls|
  {
    if calls == [] || !Allowed(a, calls[0]) then 0 else 1 + AllowedPrefix(Perform(a, calls[0]), calls[1..])
  }

  function After(a: Records, calls: seq<Call>): Records
    decreases |calls|
  {
    if calls == [] || !Allowed(a, calls[0]) then a else After(Perform(a, calls[0]), calls[1..])
  }

  /** One call on the page in place, if its assertions hold. */
  method Issue(page: SlottedPage, c: Call) returns (ok: bool)
    requires PageOk(page.View(), page.pageSize)
    modifies page, page.data
    ensures PageOk(page.View(), page.pageSize)
    ensures ok <==> Allowed(old(Seen(page.View(), page.pageSize)), c)
    ensures ok ==> Seen(page.View(), page.pageSize) == Perform(old(Seen(page.View(), page.pageSize)), c)
    ensures !ok ==> page.View() == old(page.View())
  {
    hide Placed, LiveSum, Trim, Resized, Zeros;
    SeenSlots(page.View(), page.pageSize);
    match c {
      case Alloc(n) =>
        ok := 0 < n && page.firstFree <= |page.slots| && n + (if page.firstFree == |page.slots| then SLOT else 0) <= page.freeSpace;
        if ok {
          var id := page.Allocate(n);
          SeenSlots(page.View(), page.pageSize);
          HintIs(Entries(page.View()), id, page.firstFree);
        }
      case Resize(id, n) =>
        ok := id < |page.slots| && page.slots[id].Record? && 0 < n <= page.freeSpace + page.slots[id].size
              && (page.slots[id].target && n < page.slots[id].size ==> TID < n);
        if ok {
          page.Relocate(id, n);
        }
      case Drop(id) =>
        ok := id < |page.slots| && page.slots[id].Record?;
        if ok {
          page.Erase(id);
        }
    }
  }

  lemma SeenSlots(p: Page, pageSize: nat)
    requires PageOk(p, pageSize)
    ensures |Entries(p)| == |p.slots|
    ensures forall i :: 0 <= i < |p.slots| ==> (Entries(p)[i].Vacant? <==> p.slots[i].Free?)
    ensures forall i :: 0 <= i < |p.slots| ==> (Entries(p)[i].Live? <==> p.slots[i].Record?)
    ensures forall i :: 0 <= i < |p.slots| && p.slots[i].Record? ==>
                          |Entries(p)[i].bytes| == p.slots[i].size > 0 && Entries(p)[i].target == p.slots[i].target
  {
    EntriesFreeAll(p, pageSize);
  }

  lemma HintIs(e: seq<Entry>, id: nat, r: nat)
    requires id < r <= |e| && (r < |e| ==> e[r].Vacant?)
    requires forall j :: id < j < |e| && e[j].Vacant? ==> j <= r < |e|
    ensures r == VacantAfter(e, id)
  {
  }

  /** The page in place does, call by call, what the calls do to the records. */
  method Issues(page: SlottedPage, calls: seq<Call>) returns (done: nat)
    requires PageOk(page.View(), page.pageSize)
    modifies page, page.data
    ensures PageOk(page.View(), page.pageSize)
    ensures done == AllowedPrefix(old(Seen(page.View(), page.pageSize)), calls)
    ensures Seen(page.View(), page.pageSize) == After(old(Seen(page.View(), page.pageSize)), calls)
  {
    hide Layout, PageOk, Perform, Allowed;
    done := 0;
    var ok := true;
    while ok && done < |calls|
      invariant done <= |calls|
      invariant PageOk(page.View(), page.pageSize)
      invariant After(old(Seen(page.View(), page.pageSize)), calls) == After(Seen(page.View(), page.pageSize), calls[done..])
      invariant AllowedPrefix(old(Seen(page.View(), page.pageSize)), calls)
             == done + AllowedPrefix(Seen(page.View(), page.pageSize), calls[done..])
      invariant !ok ==> done < |calls| && !Allowed(Seen(page.View(), page.pageSize), calls[done])
      decreases |calls| - done, ok
    {
      assert calls[done..][1..] == calls[done + 1..];
      ok := Issue(page, calls[done]);
      if ok {
        done := done + 1;
      }
    }
  }

  // ---------- what a run keeps ----------

  /** No run that leaves record `id` alone changes it, whatever it moves. */
  lemma {:induction false} RecordStays(a: Records, calls: seq<Call>, id: nat)
    requires id < |a.entries| && a.entries[id].Live?
    requires a.hint < |a.entries| ==> a.entries[a.hint].Vacant?
    requires forall c :: c in calls ==> (c.Resize? || c.Drop? ==> c.id != id)
    ensures var b := After(a, calls); id < |b.entries| && b.entries[id] == a.entries[id]
    decreases |calls|
  {
    if calls != [] && Allowed(a, calls[0]) {
      var b := Perform(a, calls[0]);
      HintStays(a, calls[0]);
      assert calls[0] in calls;
      assert id < |b.entries| && b.entries[id] == a.entries[id];
      RecordStays(b, calls[1..], id);
    }
  }

  lemma HintStays(a: Records, c: Call)
    requires a.hint < |a.entries| ==> a.entries[a.hint].Vacant?
    requires Allowed(a, c)
    ensures var b := Perform(a, c); b.hint < |b.entries| ==> b.entries[b.hint].Vacant?
  {
  }

  // ---------- the free-slot hint ----------

  /** Where the hint stands once record `id` is erased. */
  function HintAfter(hint: nat, id: nat): nat { if id < hint then id else hint }

  /**
    Erasing leaves the hint beyond the slots, so that the assertion of the next allocation
    (slotted_page.cc:33) fails, exactly when the record is in the last slot and every slot from
    just before the new hint up to it is empty.
    */
  lemma {:induction false} HintBeyondSlots(a: Records, id: nat)
    requires a.hint < |a.entries| ==> a.entries[a.hint].Vacant?
    requires Allowed(a, Drop(id))
    ensures var b := Perform(a, Drop(id));
            |b.entries| < b.hint <==>
            id == |a.entries| - 1 && 0 < HintAfter(a.hint, id)
            && forall j :: HintAfter(a.hint, id) - 1 <= j < id ==> a.entries[j].Vacant?
  {
    var h := HintAfter(a.hint, id);
    var b := Perform(a, Drop(id));
    if id == |a.entries| - 1 {
      var e := a.entries[id := Vacant];
      assert b.entries == Trim(e);
      if |b.entries| < h {
        forall j | h - 1 <= j < id ensures a.entries[j].Vacant? {
          assert e[j].Vacant?;
        }
      } else if 0 < h && b.entries != [] {
        var k := |b.entries| - 1;
        assert !e[k].Vacant? && h - 1 <= k < id;
      }
    }
  }

  /** `k` more records of one byte behind `m` such records. */
  lemma {:induction false} Fills(m: nat, k: nat, f: nat)
    ensures var z := Live([0], false);
            After(Records(seq(m, _ => z), m, f + k * (SLOT + 1)), seq(k, _ => Alloc(1))) == Records(seq(m + k, _ => z), m + k, f)
    decreases k
  {
    if k != 0 {
      var z := Live([0], false);
      assert seq(k, _ => Alloc(1)) == [Alloc(1)] + seq(k - 1, _ => Alloc(1));
      assert seq(m, _ => z) + [z] == seq(m + 1, _ => z);
      Grows(seq(m, _ => z), f + (k - 1) * (SLOT + 1), seq(k - 1, _ => Alloc(1)));
      Fills(m + 1, k - 1, f);
    }
  }

  /** Three of five records go. */
  lemma ThreeHoles(f: nat)
    ensures var z := Live([0], false);
            After(Records([z, z, z, z, z], 5, f), [Drop(1), Drop(2), Drop(3)])
            == Records([z, Vacant, Vacant, Vacant, z], 1, f + 3)
  {
    hide Perform, Allowed;
    var z := Live([0], false);
    var full := Records([z, z, z, z, z], 5, f);
    var one := Records([z, Vacant, z, z, z], 1, f + 1);
    var two := Records([z, Vacant, Vacant, z, z], 1, f + 2);
    var three := Records([z, Vacant, Vacant, Vacant, z], 1, f + 3);
    DropInside(full, 1, one);
    DropInside(one, 2, two);
    DropInside(two, 3, three);
    Then(two, Drop(3), [], three);
    Then(one, Drop(2), [Drop(3)], two);
    Then(full, Drop(1), [Drop(2), Drop(3)], one);
  }

  lemma Then(a: Records, c: Call, rest: seq<Call>, b: Records)
    requires Allowed(a, c) && Perform(a, c) == b
    ensures After(a, [c] + rest) == After(b, rest)
  {
    assert ([c] + rest)[1..] == rest;
  }

  lemma Grows(e: seq<Entry>, f: nat, rest: seq<Call>)
    ensures After(Records(e, |e|, f + SLOT + 1), [Alloc(1)] + rest)
            == After(Records(e + [Live([0], false)], |e| + 1, f), rest)
  {
    assert Zeros(1) == [0];
    Then(Records(e, |e|, f + SLOT + 1), Alloc(1), rest, Records(e + [Live([0], false)], |e| + 1, f));
  }

  lemma DropInside(a: Records, id: nat, b: Records)
    requires id + 1 < |a.entries| && a.entries[id] == Live([0], false)
    requires b == Records(a.entries[id := Vacant], HintAfter(a.hint, id), a.free + 1)
    ensures Allowed(a, Drop(id)) && Perform(a, Drop(id)) == b
  {
  }

  /** Two records reuse slots 1 and 3: the scan for the next empty slot passes over slot 2. */
  lemma ScanPassesOver(f: nat)
    ensures var z := Live([0], false);
            var a := Records([z, Vacant, Vacant, Vacant, z], 1, f + 2);
            var b := Records([z, z, Vacant, Vacant, z], 3, f + 1);
            && Allowed(a, Alloc(1)) && Perform(a, Alloc(1)) == b
            && Allowed(b, Alloc(1)) && Perform(b, Alloc(1)) == Records([z, z, Vacant, z, z], 5, f)
  {
    var z := Live([0], false);
    var e := [z, z, Vacant, Vacant, z];
    assert [z, Vacant, Vacant, Vacant, z][1 := z] == e && e[3].Vacant? && e[4] == z;
    assert Zeros(1) == [0];
    HintIs(e, 1, 3);
    var g := [z, z, Vacant, z, z];
    assert e[3 := z] == g && g[4] == z;
    HintIs(g, 3, 5);
  }

  /** Erasing the last two records then drops slot 2 as well, and the hint stays at 3. */
  lemma SlotsGoBelowHint(f: nat)
    ensures var z := Live([0], false);
            var c := Records([z, z, Vacant, z, z], 5, f);
            var d := Records([z, z, Vacant, z], 4, f + 9);
            && Allowed(c, Drop(4)) && Perform(c, Drop(4)) == d
            && Allowed(d, Drop(3)) && Perform(d, Drop(3)) == Records([z, z], 3, f + 26)
  {
    var z := Live([0], false);
    var e := [z, z, Vacant, z, Vacant];
    assert [z, z, Vacant, z, z][4 := Vacant] == e && e[3] == z && e[4].Vacant?;
    assert Trim(e) == e[..4] == [z, z, Vacant, z];
    var g := [z, z, Vacant, Vacant];
    assert [z, z, Vacant, z][3 := Vacant] == g && g[1] == z && g[2].Vacant? && g[3].Vacant?;
    assert Trim(g) == g[..2] == [z, z];
  }

  /** The page that `Allocate` cannot be called on any more, reached from an empty page with room enough. */
  lemma SkippedSlot(f: nat)
    ensures var five := After(Records([], 0, f + 45), seq(5, _ => Alloc(1)));
            var holes := After(five, [Drop(1), Drop(2), Drop(3)]);
            var b := After(holes, [Alloc(1), Alloc(1), Drop(4), Drop(3)]);
            |b.entries| == 2 && b.hint == 3 && !Allowed(b, Alloc(1))
  {
    hide Perform, Allowed;
    Fills(0, 5, f);
    ThreeHoles(f);
    ScanPassesOver(f + 1);
    SlotsGoBelowHint(f + 1);
    var z := Live([0], false);
    assert seq(0, _ => z) == [] && seq(5, _ => z) == [z, z, z, z, z];
    var a := Records([z, Vacant, Vacant, Vacant, z], 1, f + 3);
    var b := Records([z, z, Vacant, Vacant, z], 3, f + 2);
    var c := Records([z, z, Vacant, z, z], 5, f + 1);
    var d := Records([z, z, Vacant, z], 4, f + 10);
    var e := Records([z, z], 3, f + 27);
    Then(d, Drop(3), [], e);
    Then(c, Drop(4), [Drop(3)], d);
    Then(b, Alloc(1), [Drop(4), Drop(3)], c);
    Then(a, Alloc(1), [Alloc(1), Drop(4), Drop(3)], b);
    assert [Alloc(1)] + [Alloc(1), Drop(4), Drop(3)] == [Alloc(1), Alloc(1), Drop(4), Drop(3)];
    assert [Alloc(1)] + [Drop(4), Drop(3)] == [Alloc(1), Drop(4), Drop(3)];
    assert [Drop(4)] + [Drop(3)] == [Drop(4), Drop(3)] && [Drop(3)] + [] == [Drop(3)];
    NotBeyond(e);
  }

  lemma NotBeyond(a: Records)
    requires |a.entries| < a.hint
    ensures !Allowed(a, Alloc(1))
  {
  }
}
