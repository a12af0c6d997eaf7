/** XDP programs that read a trie a moment ago may still be following it: a slot it
    refers to must not get another body before they are through (slotGrace in
    pkg/collector/rules.go). `leftAt` is when a live trie that referred to a slot
    was last replaced; `CalmBooks` says that no such reader can be at a free slot. */
module RuleReaders {
  import opened Basics
  import opened RuleLayout
  import opened RuleTries
  import opened SlotLedger

  /** The slots a trie refers to. */
  function Refs(trie: Trie): set<Slot> {
    set p, i | p in trie && 0 <= i < |trie[p]| :: trie[p][i]
  }

  lemma RefsRefer(trie: Trie, s: Slot)
    ensures s in Refs(trie) <==> RefersTo(trie, s)
  {
    if RefersTo(trie, s) {
      var p :| p in trie && s in trie[p];
      var i :| 0 <= i < |trie[p]| && trie[p][i] == s;
    }
  }

  /** A live trie is replaced. */
  function LeftNow(leftAt: map<Slot, int>, trie: Trie, now: int): map<Slot, int> {
    leftAt + map s | s in Refs(trie) :: now
  }

  /** Readers may still be at the slot, from a trie live within the grace period. */
  predicate RecentlyLeft(leftAt: map<Slot, int>, s: Slot, now: int) {
    s in leftAt && now - leftAt[s] < SLOT_GRACE
  }

  /** No reader of an earlier trie can be at one of these slots. */
  ghost predicate AllCalm(free: seq<Slot>, leftAt: map<Slot, int>, clock: int) {
    forall s :: s in free ==> !RecentlyLeft(leftAt, s, clock)
  }

  /** How many of these slots readers may be at. */
  function Hot(slots: seq<Slot>, leftAt: map<Slot, int>, now: int): nat {
    if slots == [] then 0
    else Hot(slots[..|slots| - 1], leftAt, now) + Count(RecentlyLeft(leftAt, slots[|slots| - 1], now))
  }

  lemma HotSnoc(slots: seq<Slot>, s: Slot, leftAt: map<Slot, int>, now: int)
    ensures Hot(slots + [s], leftAt, now) == Hot(slots, leftAt, now) + Count(RecentlyLeft(leftAt, s, now))
  {
    assert (slots + [s])[..|slots|] == slots;
  }

  lemma {:induction false} CalmNotHot(slots: seq<Slot>, leftAt: map<Slot, int>, now: int)
    requires AllCalm(slots, leftAt, now)
    ensures Hot(slots, leftAt, now) == 0
  {
    if slots != [] {
      CalmNotHot(slots[..|slots| - 1], leftAt, now);
      assert slots[|slots| - 1] in slots;
    }
  }

  /** Slots taken from calm ones are calm. */
  lemma NoneHot(free: seq<Slot>, taken: seq<Slot>, given: seq<Slot>, leftAt: map<Slot, int>, now: int)
    requires Shared(free, taken, given) && AllCalm(given, leftAt, now)
    ensures Hot(taken, leftAt, now) == 0
  {
    forall s | s in taken ensures s in given {
      assert CountIn(free, s) + CountIn(taken, s) == CountIn(given, s);
      CountMember(taken, s);
      CountMember(given, s);
    }
    CalmNotHot(taken, leftAt, now);
  }

  /** No reader of an earlier trie can be at a free slot, nor will one be at a slot
      when it is released. */
  ghost predicate CalmBooks(free: seq<Slot>, retired: seq<RetiredSlot>, leftAt: map<Slot, int>, clock: int) {
    && AllCalm(free, leftAt, clock)
    && (forall r :: r in retired && r.slot in leftAt ==> leftAt[r.slot] <= r.at)
    && (forall s :: s in leftAt ==> leftAt[s] <= clock)
  }

  lemma {:induction false} ReleasedFrom(retired: seq<RetiredSlot>, now: int)
    ensures forall s :: s in Released(retired, now) ==> Graced(retired, s, now)
    ensures forall r :: r in Kept(retired, now) ==> r in retired
  {
    if retired != [] {
      var n := |retired| - 1;
      ReleasedFrom(retired[..n], now);
      forall s | s in Released(retired, now) ensures Graced(retired, s, now) {
        if s in Released(retired[..n], now) {
          var r :| r in retired[..n] && r.slot == s && now - r.at >= SLOT_GRACE;
          assert r in retired;
        } else {
          assert retired[n] in retired;
        }
      }
      forall r | r in Kept(retired, now) ensures r in retired {
        if r in Kept(retired[..n], now) { assert r in retired[..n]; }
      }
    }
  }

  ghost predicate Graced(retired: seq<RetiredSlot>, s: Slot, now: int) {
    exists r :: r in retired && r.slot == s && now - r.at >= SLOT_GRACE
  }

  /** Fewer free slots are calm if all are. */
  lemma FewerCalm(free: seq<Slot>, given: seq<Slot>, retired: seq<RetiredSlot>, leftAt: map<Slot, int>, clock: int)
    requires CalmBooks(given, retired, leftAt, clock) && forall s :: s in free ==> s in given
    ensures CalmBooks(free, retired, leftAt, clock)
  {
  }

  /** Releasing keeps calm. */
  lemma ReleaseCalm(free: seq<Slot>, retired: seq<RetiredSlot>, leftAt: map<Slot, int>, clock: int, now: int)
    requires CalmBooks(free, retired, leftAt, clock)
    ensures CalmBooks(free + Released(retired, now), Kept(retired, now), leftAt, if now > clock then now else clock)
  {
    ReleasedFrom(retired, now);
    var later := if now > clock then now else clock;
    forall s | s in free + Released(retired, now) ensures !RecentlyLeft(leftAt, s, later) {
      if s in free {
        assert !RecentlyLeft(leftAt, s, clock);
      } else {
        var r :| r in retired && r.slot == s && now - r.at >= SLOT_GRACE;
      }
    }
  }

  /** Replacing a trie that refers to installed slots only keeps calm. */
  lemma ReplaceCalm(free: seq<Slot>, retired: seq<RetiredSlot>, slots: map<Bytes, Slot>, leftAt: map<Slot, int>,
                    trie: Trie, now: int)
    requires CalmBooks(free, retired, leftAt, now) && Conserved(free, retired, slots)
    requires forall s :: RefersTo(trie, s) ==> InUse(slots, s)
    ensures CalmBooks(free, retired, LeftNow(leftAt, trie, now), now)
  {
    forall s | s in Refs(trie) ensures s !in free && (forall r :: r in retired ==> r.slot != s) {
      RefsRefer(trie, s);
      assert Holders(free, retired, slots, s) == Count(s < RULE_SLOTS);
      CountMember(free, s);
      RetiredMember(retired, s);
    }
  }

  /** Retiring slots now, and handing none out, keeps calm. */
  lemma RetireCalm(free: seq<Slot>, given: seq<Slot>, retired: seq<RetiredSlot>, gone: seq<Slot>,
                   leftAt: map<Slot, int>, now: int)
    requires CalmBooks(given, retired, leftAt, now) && forall s :: s in free ==> s in given
    ensures CalmBooks(free, retired + RetireAll(gone, now), leftAt, now)
  {
    forall r | r in retired + RetireAll(gone, now) && r.slot in leftAt ensures leftAt[r.slot] <= r.at {
      if r !in retired {
        var i :| 0 <= i < |gone| && RetireAll(gone, now)[i] == r;
      }
    }
  }
}
