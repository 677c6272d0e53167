/** The sliding replay window, refined to the set of counters it has accepted. */
module Replay {
  import opened Prelude

  const REPLAY_WINDOW_BITS := 128

  const TWO_TO_THE_128 := 0x1_0000_0000_0000_0000_0000_0000_0000_0000

  type u128 = word: int | 0 <= word < TWO_TO_THE_128

  // ---- Words ----------------------------------------------------------------

  function Power2(n: nat): (power: nat)
    ensures power > 0
  {
    if n == 0 then 1 else 2 * Power2(n - 1)
  }

  lemma WordBits()
    ensures Power2(REPLAY_WINDOW_BITS) == TWO_TO_THE_128
  {
    assert Power2(2) == 4;
    hide Power2;
    PowersMultiply(2, 2);
    PowersMultiply(4, 4);
    PowersMultiply(8, 8);
    assert Power2(16) == 0x1_0000;
    PowersMultiply(16, 16);
    assert Power2(32) == 0x1_0000_0000;
    PowersMultiply(32, 32);
    PowersMultiply(64, 64);
  }

  lemma {:induction false} PowersMultiply(a: nat, b: nat)
    ensures Power2(a + b) == Power2(a) * Power2(b)
  {
    if a != 0 { PowersMultiply(a - 1, b); }
  }

  /** Bit `index` of a word, the least significant being bit zero. */
  predicate Bit(word: nat, index: nat) {
    if index == 0 then word % 2 == 1 else Bit(word / 2, index - 1)
  }

  /** `word << amount`: what leaves the word is lost. */
  function ShiftLeft(word: u128, amount: nat): u128
    requires amount < REPLAY_WINDOW_BITS
  {
    (word * Power2(amount)) % TWO_TO_THE_128
  }

  /** `word | (1 << index)`. */
  function WithBit(word: nat, index: nat): nat {
    if index == 0 then word + 1 - word % 2 else 2 * WithBit(word / 2, index - 1) + word % 2
  }

  lemma {:induction false} ShiftedBit(word: nat, amount: nat, index: nat)
    ensures Bit(word * Power2(amount), index) <==> index >= amount && Bit(word, index - amount)
  {
    if amount != 0 {
      var half := word * Power2(amount - 1);
      assert word * Power2(amount) == 2 * half;
      if index != 0 { ShiftedBit(word, amount - 1, index - 1); }
    }
  }

  /** Bits below `count` do not see what is cut off above. */
  lemma {:induction false} LowBit(word: nat, count: nat, index: nat)
    requires index < count
    ensures Bit(word % Power2(count), index) <==> Bit(word, index)
  {
    HalfOfRest(word, Power2(count - 1));
    if index != 0 { LowBit(word / 2, count - 1, index - 1); }
  }

  lemma HalfOfRest(word: nat, half: nat)
    requires half > 0
    ensures word % (2 * half) / 2 == word / 2 % half && word % (2 * half) % 2 == word % 2
  {
    var q, rest := word / (2 * half), word % (2 * half);
    assert word == q * (2 * half) + rest;
    assert word == 2 * (q * half) + rest;
    assert word / 2 == q * half + rest / 2 && rest / 2 < half;
    RestIsUnique(word / 2, half, q, rest / 2);
  }

  lemma RestIsUnique(n: nat, d: nat, q: nat, rest: nat)
    requires d > 0 && n == q * d + rest && rest < d
    ensures n % d == rest
  {
    var k, r := n / d, n % d;
    assert q * d + rest == k * d + r;
    assert (q - k) * d == q * d - k * d;
    if k < q { AtLeastOne(q - k, d); }
    if k > q { AtLeastOne(k - q, d); }
  }

  lemma AtLeastOne(k: int, d: nat)
    requires k >= 1
    ensures k * d >= d && -k * d == -(k * d)
  {
  }

  /** Every bit of a shifted word is one further down in the original, or zero. */
  lemma ShiftLeftBit(word: u128, amount: nat, index: nat)
    requires amount < REPLAY_WINDOW_BITS && index < REPLAY_WINDOW_BITS
    ensures Bit(ShiftLeft(word, amount), index) <==> index >= amount && Bit(word, index - amount)
  {
    WordBits();
    LowBit(word * Power2(amount), REPLAY_WINDOW_BITS, index);
    ShiftedBit(word, amount, index);
  }

  /** Setting a bit sets that bit and leaves the others. */
  lemma {:induction false} WithBitBit(word: nat, changed: nat, index: nat)
    ensures Bit(WithBit(word, changed), index) <==> index == changed || Bit(word, index)
  {
    if changed != 0 && index != 0 { WithBitBit(word / 2, changed - 1, index - 1); }
  }

  lemma {:induction false} WithBitFits(word: nat, index: nat, count: nat)
    requires word < Power2(count) && index < count
    ensures WithBit(word, index) < Power2(count)
  {
    if index != 0 { WithBitFits(word / 2, index - 1, count - 1); }
  }

  // ---- The window -----------------------------------------------------------

  type Counters = set<u64>

  predicate IsHighest(accepted: Counters, highest: Option<u64>) {
    match highest
    case None => accepted == {}
    case Some(top) => top in accepted && forall c :: c in accepted ==> c <= top
  }

  /** The rule over the set: newer than everything accepted, or inside the window and never accepted. */
  predicate Acceptable(accepted: Counters, highest: Option<u64>, counter: u64) {
    highest.None? || counter > highest.value
    || (highest.value - counter < REPLAY_WINDOW_BITS && counter !in accepted)
  }

  /** The bitmap says of every counter inside the window whether it was accepted. */
  ghost predicate Represents(seen: u128, highest: Option<u64>, accepted: Counters) {
    && IsHighest(accepted, highest)
    && (highest.Some? ==> forall age :: 0 <= age < REPLAY_WINDOW_BITS ==>
                            (Bit(seen, age) <==> highest.value - age in accepted))
  }

  /** The duplicate filter as the source keeps it: the highest counter and a bitmap of the last 128. */
  class ReplayWindow {
    var highest: Option<u64>
    var seen: u128
    ghost var accepted: Counters

    ghost predicate Valid()
      reads this
    {
      Represents(seen, highest, accepted)
    }

    constructor ()
      ensures Valid() && accepted == {} && highest == None
    {
      highest, seen, accepted := None, 0, {};
    }

    method Accept(counter: u64) returns (ok: bool)
      requires Valid()
      modifies this
      ensures Valid()
      ensures ok <==> Acceptable(old(accepted), old(highest), counter)
      ensures accepted == if ok then old(accepted) + {counter} else old(accepted)
    {
      hide Bit, ShiftLeft, WithBit;
      if highest.None? {
        OneStands(1, counter, {counter});
        highest, seen, accepted := Some(counter), 1, {counter};
        return true;
      }
      var top := highest.value;
      if counter > top {
        var advance := counter - top;
        if advance >= REPLAY_WINDOW_BITS {
          OneStands(1, counter, accepted + {counter});
          seen := 1;
        } else {
          ShiftStands(seen, top, accepted, counter);
          seen := WithBit(ShiftLeft(seen, advance), 0);
        }
        highest, accepted := Some(counter), accepted + {counter};
        return true;
      }
      var age := top - counter;
      if age >= REPLAY_WINDOW_BITS {
        return false;
      }
      if Bit(seen, age) {
        return false;
      }
      SetStands(seen, top, accepted, counter);
      seen, accepted := WithBit(seen, age), accepted + {counter};
      return true;
    }
  }

  /** The word 1 says that of the window only its newest counter was accepted. */
  lemma OneStands(seen: u128, top: u64, accepted: Counters)
    requires seen == 1 && top in accepted && forall c :: c in accepted ==> c == top || c + REPLAY_WINDOW_BITS <= top
    ensures Represents(seen, Some(top), accepted)
  {
    hide Bit;
    forall age | 0 <= age < REPLAY_WINDOW_BITS ensures Bit(seen, age) <==> top - age in accepted { OneBit(age); }
  }

  lemma OneBit(index: nat)
    ensures Bit(1, index) <==> index == 0
  {
    if index != 0 { NoBit(index - 1); }
  }

  lemma {:induction false} NoBit(index: nat)
    ensures !Bit(0, index)
  {
    if index != 0 { NoBit(index - 1); }
  }

  /** Moving the window up to a newer counter. */
  lemma ShiftStands(seen: u128, top: u64, accepted: Counters, counter: u64)
    requires Represents(seen, Some(top), accepted) && top < counter < top + REPLAY_WINDOW_BITS
    ensures var word := WithBit(ShiftLeft(seen, counter - top), 0);
            word < TWO_TO_THE_128 && Represents(word, Some(counter), accepted + {counter})
  {
    hide Bit, ShiftLeft, WithBit;
    var shifted := ShiftLeft(seen, counter - top);
    WordBits();
    WithBitFits(shifted, 0, REPLAY_WINDOW_BITS);
    forall age | 0 <= age < REPLAY_WINDOW_BITS
      ensures Bit(WithBit(shifted, 0), age) <==> counter - age in accepted + {counter}
    {
      WithBitBit(shifted, 0, age);
      ShiftLeftBit(seen, counter - top, age);
      if age >= counter - top { assert top - (age - (counter - top)) == counter - age; }
    }
  }

  /** Accepting a counter inside the window. */
  lemma SetStands(seen: u128, top: u64, accepted: Counters, counter: u64)
    requires Represents(seen, Some(top), accepted) && counter <= top < counter + REPLAY_WINDOW_BITS
    ensures var word := WithBit(seen, top - counter);
            word < TWO_TO_THE_128 && Represents(word, Some(top), accepted + {counter})
  {
    hide Bit, WithBit;
    WordBits();
    WithBitFits(seen, top - counter, REPLAY_WINDOW_BITS);
    var word := WithBit(seen, top - counter);
    forall age | 0 <= age < REPLAY_WINDOW_BITS ensures Bit(word, age) <==> top - age in accepted + {counter} {
      WithBitBit(seen, top - counter, age);
    }
  }

  // ---- Runs -----------------------------------------------------------------

  /** The set accepted after offering counters in order to a new window. */
  ghost function AcceptedAfter(offered: seq<u64>): (Counters, Option<u64>) {
    if offered == [] then ({}, None)
    else
      var (accepted, highest) := AcceptedAfter(offered[..|offered| - 1]);
      var counter := offered[|offered| - 1];
      if !Acceptable(accepted, highest, counter) then (accepted, highest)
      else (accepted + {counter}, if highest.None? || counter > highest.value then Some(counter) else highest)
  }

  ghost predicate AcceptedAt(offered: seq<u64>, i: nat)
    requires i < |offered|
  {
    var (accepted, highest) := AcceptedAfter(offered[..i]);
    Acceptable(accepted, highest, offered[i])
  }

  lemma {:induction false} HighestIsKept(offered: seq<u64>)
    ensures var (accepted, highest) := AcceptedAfter(offered); IsHighest(accepted, highest)
  {
    if offered != [] { HighestIsKept(offered[..|offered| - 1]); }
  }

  lemma {:induction false} AcceptedStay(offered: seq<u64>, i: nat)
    requires i < |offered| && AcceptedAt(offered, i)
    ensures offered[i] in AcceptedAfter(offered).0
  {
    var n := |offered| - 1;
    if i < n {
      assert offered[..n][..i] == offered[..i];
      AcceptedStay(offered[..n], i);
    }
  }

  /** Over any run no counter is accepted twice. */
  lemma NeverTwice(offered: seq<u64>, i: nat, j: nat)
    requires i < j < |offered| && AcceptedAt(offered, i) && AcceptedAt(offered, j)
    ensures offered[i] != offered[j]
  {
    assert offered[..j][..i] == offered[..i];
    AcceptedStay(offered[..j], i);
    HighestIsKept(offered[..j]);
  }

  lemma {:induction false} AcceptedWereAccepted(offered: seq<u64>, counter: u64)
    ensures counter in AcceptedAfter(offered).0 <==>
            exists k :: 0 <= k < |offered| && AcceptedAt(offered, k) && offered[k] == counter
  {
    if offered != [] {
      var n := |offered| - 1;
      AcceptedWereAccepted(offered[..n], counter);
      forall k | 0 <= k < n ensures AcceptedAt(offered[..n], k) <==> AcceptedAt(offered, k) {
        assert offered[..n][..k] == offered[..k];
      }
    }
  }

  /**
   Over any run a counter is accepted exactly when it has not been accepted before and is less than 128
   behind every counter that has.
   */
  lemma AcceptedIff(offered: seq<u64>, i: nat)
    requires i < |offered|
    ensures AcceptedAt(offered, i) <==>
            forall k :: 0 <= k < i && AcceptedAt(offered, k) ==>
              offered[k] != offered[i] && (offered[k] as int) < (offered[i] as int) + 128
  {
    var before := offered[..i];
    var (accepted, highest) := AcceptedAfter(before);
    HighestIsKept(before);
    AcceptedWereAccepted(before, offered[i]);
    if highest.Some? { AcceptedWereAccepted(before, highest.value); }
    forall k | 0 <= k < i
      ensures before[k] == offered[k] && (AcceptedAt(before, k) <==> AcceptedAt(offered, k))
      ensures AcceptedAt(offered, k) ==> offered[k] in accepted
    {
      assert before[..k] == offered[..k];
      if AcceptedAt(before, k) { AcceptedStay(before, k); }
    }
    hide AcceptedAfter;
  }
}
