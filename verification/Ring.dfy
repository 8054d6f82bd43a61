/** Arithmetic of ring positions: unit i of a ring of g slots lives in slot i % g. */
module Ring {

  lemma Multiple(g: nat, k: int)
    requires g > 0
    ensures k <= 0 ==> g * k <= 0
    ensures k >= 1 ==> g * k >= g
  {
  }

  /** A remainder is the only way to write a number as a multiple plus less than one. */
  lemma Split(x: nat, g: nat, q: int, r: nat)
    requires r < g && x == g * q + r
    ensures x % g == r
  {
    var k := q - x / g;
    assert g * k == g * q - g * (x / g);
    assert x == g * (x / g) + x % g;
    Multiple(g, k);
    Multiple(g, -k);
    assert g * -k == -(g * k);
  }

  /** Two units less than a ring apart live in different slots. */
  lemma OtherSlot(i: nat, j: nat, g: nat)
    requires i < j < i + g
    ensures i % g != j % g
  {
    var k := j / g - i / g;
    assert j == g * (j / g) + j % g;
    assert i == g * (i / g) + i % g;
    assert g * k == g * (j / g) - g * (i / g);
    Multiple(g, k);
  }

  /** How far below `last` the newest unit of `slot` lies. */
  function Behind(last: nat, slot: nat, g: nat): (r: nat)
    requires slot < g
    ensures r < g
  {
    (last % g + g - slot) % g
  }

  /** It is the unit of that slot at or below `last`, less than a ring back. */
  lemma BehindSlot(last: nat, slot: nat, g: nat)
    requires slot < g && Behind(last, slot, g) <= last
    ensures (last - Behind(last, slot, g)) % g == slot
  {
    var x := last % g + g - slot;
    assert last == g * (last / g) + last % g;
    if slot <= last % g {
      Split(x, g, 1, last % g - slot);
      Split(last - Behind(last, slot, g), g, last / g, slot);
    } else {
      Split(x, g, 0, x);
      assert g * (last / g - 1) == g * (last / g) - g;
      Split(last - Behind(last, slot, g), g, last / g - 1, slot);
    }
  }

  /** When that would lie below zero, no unit up to `last` lives in the slot. */
  lemma NoneBehind(last: nat, slot: nat, g: nat, k: nat)
    requires slot < g && last < Behind(last, slot, g) && k <= last
    ensures k % g != slot
  {
    Split(last, g, 0, last);
    Split(k, g, 0, k);
    var x := last % g + g - slot;
    if slot <= last {
      Split(x, g, 1, last - slot);
    }
  }

  /** The unit of a slot less than a ring back from `last` is that far behind it. */
  lemma BehindIs(last: nat, slot: nat, g: nat, k: nat)
    requires slot < g && k % g == slot && k <= last < k + g
    ensures Behind(last, slot, g) == last - k
  {
    var back := Behind(last, slot, g);
    if last < back {
      NoneBehind(last, slot, g, k);
    } else {
      BehindSlot(last, slot, g);
      if k < last - back { OtherSlot(k, last - back, g); } else if last - back < k { OtherSlot(last - back, k, g); }
    }
  }
}
