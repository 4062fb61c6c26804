/**
 * The policy of `_get_available_account`: which accounts have a free
 * concurrency slot and are past their pacing interval, and which of those has
 * gone longest without use. Slots are in-use counters; an account seen for the
 * first time gets a slot with nothing in use.
 */
module AccountSelection {
  import opened Wrappers

  /**
   * What the selector reads: the in-use count per known slot
   * (`account_semaphores`, whose `_value` is `maxConcurrent - inUse`), the last
   * dispatch time per account (`account_last_used`), the per-account limit and
   * the pacing interval (`min_delay_seconds`).
   */
  datatype SlotView = SlotView(
    inUse: map<string, nat>,
    lastUsed: map<string, int>,
    maxConcurrent: nat,
    minDelay: real)

  /** The in-use count of an account; an account without a slot yet has none in use. */
  function InUse(inUse: map<string, nat>, a: string): nat {
    if a in inUse then inUse[a] else 0
  }

  /** The slot map after lazily creating a slot for every listed account that had none. */
  function WithSlots(inUse: map<string, nat>, names: seq<string>): map<string, nat> {
    if names == [] then inUse
    else
      var w := WithSlots(inUse, names[..|names| - 1]);
      var last := names[|names| - 1];
      if last in w then w else w[last := 0]
  }

  /**
   * The listed accounts gain a slot with none in use; every existing slot
   * keeps its count.
   */
  lemma {:induction false} WithSlotsMeaning(inUse: map<string, nat>, names: seq<string>)
    ensures forall a :: a in WithSlots(inUse, names) <==> a in inUse || a in names
    ensures forall a :: a in WithSlots(inUse, names) ==> WithSlots(inUse, names)[a] == InUse(inUse, a)
  {
    if names != [] {
      var init := names[..|names| - 1];
      WithSlotsMeaning(inUse, init);
      assert names == init + [names[|names| - 1]];
    }
  }

  /** The same, for one account. */
  lemma SlotOf(inUse: map<string, nat>, names: seq<string>, a: string)
    ensures a in WithSlots(inUse, names) <==> a in inUse || a in names
    ensures a in WithSlots(inUse, names) ==> WithSlots(inUse, names)[a] == InUse(inUse, a)
  {
    WithSlotsMeaning(inUse, names);
  }

  /** One more listed name: its slot is created unless it already had one. */
  lemma WithSlotsStep(inUse: map<string, nat>, names: seq<string>, i: nat)
    requires i < |names|
    ensures WithSlots(inUse, names[..i + 1]) ==
      var w := WithSlots(inUse, names[..i]);
      if names[i] in w then w else w[names[i] := 0]
  {
    assert names[..i + 1][..i] == names[..i];
  }


  /**
   * A free slot and either never used or used more than `min_delay_seconds`
   * ago (strictly).
   */
  predicate Eligible(v: SlotView, a: string, now: int) {
    InUse(v.inUse, a) < v.maxConcurrent
    && (a !in v.lastUsed || (now - v.lastUsed[a]) as real > v.minDelay)
  }

  /** `available_accounts`: the eligible names, in listing order. */
  function Available(v: SlotView, names: seq<string>, now: int): (av: seq<string>)
  {
    if names == [] then []
    else
      var last := names[|names| - 1];
      Available(v, names[..|names| - 1], now) + (if Eligible(v, last, now) then [last] else [])
  }

  /** One more listed name: it is appended to the available list exactly when it is eligible. */
  lemma AvailableStep(v: SlotView, names: seq<string>, i: nat, now: int)
    requires i < |names|
    ensures Available(v, names[..i + 1], now) ==
      Available(v, names[..i], now) + (if Eligible(v, names[i], now) then [names[i]] else [])
  {
    assert names[..i + 1][..i] == names[..i];
  }

  /**
   * The order of `min(..., key=lambda x: last_used.get(x, datetime.min))`:
   * `a` ranks strictly before `b`; a never-used account ranks before every used one.
   */
  predicate UsedBefore(lastUsed: map<string, int>, a: string, b: string) {
    (a !in lastUsed && b in lastUsed)
    || (a in lastUsed && b in lastUsed && lastUsed[a] < lastUsed[b])
  }

  /**
   * Python's `min` with a key: the position of the first element that no other
   * element ranks before.
   */
  function LeastRecentIndex(cands: seq<string>, lastUsed: map<string, int>): (k: nat)
    requires |cands| > 0
    ensures k < |cands|
  {
    if |cands| == 1 then 0
    else
      var k := LeastRecentIndex(cands[..|cands| - 1], lastUsed);
      if UsedBefore(lastUsed, cands[|cands| - 1], cands[k]) then |cands| - 1 else k
  }

  /**
   * The position found is a minimum (no candidate ranks before it) and the
   * first one (every earlier candidate ranks after it).
   */
  lemma {:induction false} LeastRecentIndexIsFirstMinimum(cands: seq<string>, lastUsed: map<string, int>)
    requires |cands| > 0
    ensures forall j :: 0 <= j < |cands| ==> !UsedBefore(lastUsed, cands[j], cands[LeastRecentIndex(cands, lastUsed)])
    ensures forall j :: 0 <= j < LeastRecentIndex(cands, lastUsed) ==>
      UsedBefore(lastUsed, cands[LeastRecentIndex(cands, lastUsed)], cands[j])
  {
    if |cands| > 1 {
      var init := cands[..|cands| - 1];
      LeastRecentIndexIsFirstMinimum(init, lastUsed);
      assert forall j :: 0 <= j < |init| ==> init[j] == cands[j];
    }
  }

  /** The selector's answer for these listed accounts at time `now`. */
  function Choose(v: SlotView, names: seq<string>, now: int): Option<string> {
    var av := Available(v, names, now);
    if av == [] then None else Some(av[LeastRecentIndex(av, v.lastUsed)])
  }

  /** The available list holds exactly the eligible listed accounts. */
  lemma {:induction false} AvailableMeaning(v: SlotView, names: seq<string>, now: int, a: string)
    ensures a in Available(v, names, now) <==> a in names && Eligible(v, a, now)
  {
    if names != [] {
      var init := names[..|names| - 1];
      AvailableMeaning(v, init, now, a);
      assert names == init + [names[|names| - 1]];
    }
  }

  /** A chosen account is listed and eligible. */
  lemma ChosenIsEligible(v: SlotView, names: seq<string>, now: int)
    requires Choose(v, names, now).Some?
    ensures Choose(v, names, now).value in names
    ensures Eligible(v, Choose(v, names, now).value, now)
  {
    AvailableMeaning(v, names, now, Choose(v, names, now).value);
  }

  /**
   * A chosen account is listed and eligible, and no eligible account was used
   * less recently; in particular a never-used eligible account beats every used one.
   */
  lemma ChooseSound(v: SlotView, names: seq<string>, now: int)
    requires Choose(v, names, now).Some?
    ensures Choose(v, names, now).value in names
    ensures Eligible(v, Choose(v, names, now).value, now)
    ensures forall b :: b in names && Eligible(v, b, now) ==> !UsedBefore(v.lastUsed, b, Choose(v, names, now).value)
    ensures (exists b :: b in names && Eligible(v, b, now) && b !in v.lastUsed) ==> Choose(v, names, now).value !in v.lastUsed
  {
    var av := Available(v, names, now);
    var a := Choose(v, names, now).value;
    ChosenIsEligible(v, names, now);
    LeastRecentIndexIsFirstMinimum(av, v.lastUsed);
    forall b | b in names && Eligible(v, b, now)
      ensures !UsedBefore(v.lastUsed, b, a)
    {
      AvailableMeaning(v, names, now, b);
      var j :| 0 <= j < |av| && av[j] == b;
    }
  }

  /** The selector finds nothing exactly when no listed account is eligible. */
  lemma ChooseNoneIff(v: SlotView, names: seq<string>, now: int)
    ensures Choose(v, names, now).None? <==> forall b :: b in names ==> !Eligible(v, b, now)
  {
    var av := Available(v, names, now);
    if av != [] {
      AvailableMeaning(v, names, now, av[0]);
    }
    forall b | b in names && Eligible(v, b, now)
      ensures av != []
    {
      AvailableMeaning(v, names, now, b);
    }
  }

  /** Lazily created slots change nothing the selector sees. */
  lemma {:induction false} AvailableIgnoresLazySlots(v: SlotView, ns: seq<string>, names: seq<string>, now: int)
    ensures Available(v.(inUse := WithSlots(v.inUse, ns)), names, now) == Available(v, names, now)
  {
    WithSlotsMeaning(v.inUse, ns);
    if names != [] {
      AvailableIgnoresLazySlots(v, ns, names[..|names| - 1], now);
    }
  }

  lemma ChooseIgnoresLazySlots(v: SlotView, ns: seq<string>, names: seq<string>, now: int)
    ensures Choose(v.(inUse := WithSlots(v.inUse, ns)), names, now) == Choose(v, names, now)
  {
    AvailableIgnoresLazySlots(v, ns, names, now);
  }

  /**
   * Asking again over slots that were created by an earlier ask changes
   * nothing: the slot map comes out the same and so does the choice.
   */
  lemma AskAgain(v: SlotView, names: seq<string>, cur: map<string, nat>, now: int)
    requires cur == v.inUse || cur == WithSlots(v.inUse, names)
    ensures WithSlots(cur, names) == WithSlots(v.inUse, names)
    ensures Choose(v.(inUse := cur), names, now) == Choose(v, names, now)
  {
    ChooseIgnoresLazySlots(v, names, names, now);
    WithSlotsMeaning(v.inUse, names);
    WithSlotsMeaning(WithSlots(v.inUse, names), names);
    if cur != v.inUse {
      assert v.(inUse := cur) == v.(inUse := WithSlots(v.inUse, names));
    }
  }

  /** Two accounts, one at its concurrency limit and never used: the other one is chosen. */
  lemma FullAccountPassedOver(v: SlotView, now: int)
    requires v.maxConcurrent == 1
    requires v.inUse == map["a" := 1]
    requires "a" !in v.lastUsed && "b" !in v.lastUsed
    ensures Choose(v, ["a", "b"], now) == Some("b")
  {
    assert !Eligible(v, "a", now) && Eligible(v, "b", now);
    assert ["a", "b"][..1] == ["a"];
    assert ["a"][..0] == [];
    assert Available(v, ["a"], now) == [];
    assert Available(v, ["a", "b"], now) == ["b"];
  }
}
