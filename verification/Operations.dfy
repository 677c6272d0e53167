/**
 Histories of terminal operations, and the symbols (host bytes, resizes,
 controls) that a history comes down to when its byte runs are cut apart.
 */
module Operations {
  import opened Prelude
  import opened Wire

  // A viewport the source accepts: nonzero and sixteen bits a side.
  type Size = v: Viewport | 1 <= v.columns <= U16_MAX && 1 <= v.rows <= U16_MAX witness Viewport(80, 24)

  datatype Operation = Output(bytes: seq<byte>) | Resized(size: Size) | Controlled(control: SessionControl)

  datatype Symbol = Byte(value: byte) | NewSize(size: Size) | Ctl(control: SessionControl)

  function BytesAsSymbols(bytes: seq<byte>): (symbols: seq<Symbol>)
    ensures |symbols| == |bytes|
    ensures forall i :: 0 <= i < |bytes| ==> symbols[i] == Byte(bytes[i])
  {
    seq(|bytes|, i requires 0 <= i < |bytes| => Byte(bytes[i]))
  }

  function SymbolsOf(operation: Operation): seq<Symbol> {
    match operation
    case Output(bytes) => BytesAsSymbols(bytes)
    case Resized(size) => [NewSize(size)]
    case Controlled(control) => [Ctl(control)]
  }

  function Flatten(operations: seq<Operation>): seq<Symbol> {
    if operations == [] then [] else SymbolsOf(operations[0]) + Flatten(operations[1..])
  }

  lemma {:induction false} FlattenConcat(a: seq<Operation>, b: seq<Operation>)
    ensures Flatten(a + b) == Flatten(a) + Flatten(b)
  {
    if a == [] {
      assert a + b == b;
    } else {
      FlattenConcat(a[1..], b);
      assert (a + b)[1..] == a[1..] + b;
      Associate(SymbolsOf(a[0]), Flatten(a[1..]), Flatten(b));
    }
  }

  lemma FlattenLast(front: seq<Operation>, last: Operation)
    ensures Flatten(front + [last]) == Flatten(front) + SymbolsOf(last)
  {
    FlattenConcat(front, [last]);
    assert [last][1..] == [];
  }

  // ---- Canonical histories --------------------------------------------------

  /** No empty byte run, and no two byte runs side by side. */
  predicate IsCanonical(operations: seq<Operation>) {
    && (forall i :: 0 <= i < |operations| ==> operations[i] != Output([]))
    && (forall i :: 0 < i < |operations| ==> operations[i - 1].Output? ==> !operations[i].Output?)
  }

  predicate NoEmptyOutput(operations: seq<Operation>) {
    forall i :: 0 <= i < |operations| ==> operations[i] != Output([])
  }

  /** Adds an operation, merging a byte run into a preceding one. */
  function Merge(canonical: seq<Operation>, operation: Operation): seq<Operation> {
    if canonical != [] && canonical[|canonical| - 1].Output? && operation.Output?
    then canonical[..|canonical| - 1] + [Output(canonical[|canonical| - 1].bytes + operation.bytes)]
    else canonical + [operation]
  }

  /** The symbols regrouped into maximal byte runs. */
  function Grouped(symbols: seq<Symbol>): (operations: seq<Operation>)
    ensures IsCanonical(operations)
    ensures operations == [] <==> symbols == []
  {
    if symbols == [] then []
    else
      var front := Grouped(symbols[..|symbols| - 1]);
      MergeIsCanonical(front, Single(symbols[|symbols| - 1]));
      Merge(front, Single(symbols[|symbols| - 1]))
  }

  lemma MergeIsCanonical(canonical: seq<Operation>, operation: Operation)
    requires IsCanonical(canonical) && operation != Output([])
    ensures IsCanonical(Merge(canonical, operation))
  {
    var merged := Merge(canonical, operation);
    assert forall i :: 0 <= i < |merged| - 1 ==> merged[i] == canonical[i];
  }

  function Single(symbol: Symbol): Operation {
    match symbol
    case Byte(value) => Output([value])
    case NewSize(size) => Resized(size)
    case Ctl(control) => Controlled(control)
  }

  lemma MergeFlatten(canonical: seq<Operation>, operation: Operation)
    ensures Flatten(Merge(canonical, operation)) == Flatten(canonical) + SymbolsOf(operation)
  {
    if canonical != [] && canonical[|canonical| - 1].Output? && operation.Output? {
      var front, last := canonical[..|canonical| - 1], canonical[|canonical| - 1];
      assert canonical == front + [last];
      FlattenLast(front, last);
      FlattenLast(front, Output(last.bytes + operation.bytes));
      RunsJoin(Flatten(front), last.bytes, operation.bytes);
    } else {
      FlattenLast(canonical, operation);
    }
  }

  lemma RunsJoin(front: seq<Symbol>, a: seq<byte>, b: seq<byte>)
    ensures front + BytesAsSymbols(a + b) == front + BytesAsSymbols(a) + BytesAsSymbols(b)
  {
  }

  /** Regrouping loses nothing. */
  lemma {:induction false} FlattenGrouped(symbols: seq<Symbol>)
    ensures Flatten(Grouped(symbols)) == symbols
  {
    if symbols != [] {
      var n := |symbols| - 1;
      FlattenGrouped(symbols[..n]);
      MergeFlatten(Grouped(symbols[..n]), Single(symbols[n]));
      SingleSymbol(symbols[n]);
      assert symbols == symbols[..n] + [symbols[n]];
    }
  }

  lemma SingleSymbol(symbol: Symbol)
    ensures SymbolsOf(Single(symbol)) == [symbol]
  {
  }

  lemma GroupedSnoc(symbols: seq<Symbol>, symbol: Symbol)
    ensures Grouped(symbols + [symbol]) == Merge(Grouped(symbols), Single(symbol))
  {
    DropPrefix(symbols, [symbol]);
  }

  lemma MergeTwice(canonical: seq<Operation>, first: seq<byte>, second: seq<byte>)
    ensures Merge(Merge(canonical, Output(first)), Output(second)) == Merge(canonical, Output(first + second))
  {
    if canonical != [] && canonical[|canonical| - 1].Output? {
      var front, last := canonical[..|canonical| - 1], canonical[|canonical| - 1].bytes;
      assert canonical == front + [Output(last)];
      MergeIntoRun(front, last, first);
      MergeIntoRun(front, last + first, second);
      MergeIntoRun(front, last, first + second);
      Associate(last, first, second);
    } else {
      MergeIntoRun(canonical, first, second);
    }
  }

  lemma MergeIntoRun(front: seq<Operation>, run: seq<byte>, bytes: seq<byte>)
    ensures Merge(front + [Output(run)], Output(bytes)) == front + [Output(run + bytes)]
  {
    DropPrefix(front, [Output(run)]);
  }

  lemma {:induction false} GroupedAppendsRun(symbols: seq<Symbol>, bytes: seq<byte>)
    requires bytes != []
    ensures Grouped(symbols + BytesAsSymbols(bytes)) == Merge(Grouped(symbols), Output(bytes))
    decreases |bytes|
  {
    var n := |bytes| - 1;
    var before := symbols + BytesAsSymbols(bytes[..n]);
    assert symbols + BytesAsSymbols(bytes) == before + [Byte(bytes[n])];
    GroupedSnoc(before, Byte(bytes[n]));
    assert bytes[..n] + [bytes[n]] == bytes;
    if n == 0 {
      assert before == symbols;
    } else {
      GroupedAppendsRun(symbols, bytes[..n]);
      MergeTwice(Grouped(symbols), bytes[..n], [bytes[n]]);
    }
  }

  /** A canonical history is the grouping of its own symbols, so equal symbols mean equal canonical histories. */
  lemma {:induction false} GroupedFlatten(operations: seq<Operation>)
    requires IsCanonical(operations)
    ensures Grouped(Flatten(operations)) == operations
  {
    if operations != [] {
      var n := |operations| - 1;
      CanonicalSnoc(operations, n);
      GroupedFlatten(operations[..n]);
      MergeIsGrouped(Flatten(operations[..n]), operations[n]);
      FlattenSnoc(operations, n);
      hide Grouped, Flatten, IsCanonical, Merge;
      assert operations[..n + 1] == operations;
      assert operations[..n] + [operations[n]] == operations;
    }
  }

  lemma CanonicalSnoc(operations: seq<Operation>, n: nat)
    requires IsCanonical(operations) && |operations| == n + 1
    ensures IsCanonical(operations[..n]) && operations[n] != Output([])
    ensures Merge(operations[..n], operations[n]) == operations
  {
    assert operations == operations[..n] + [operations[n]];
  }

  lemma MergeIsGrouped(symbols: seq<Symbol>, operation: Operation)
    requires operation != Output([])
    ensures Grouped(symbols + SymbolsOf(operation)) == Merge(Grouped(symbols), operation)
  {
    match operation {
      case Output(bytes) => GroupedAppendsRun(symbols, bytes);
      case Resized(size) => GroupedSnoc(symbols, NewSize(size));
      case Controlled(control) => GroupedSnoc(symbols, Ctl(control));
    }
  }

  /** The symbols of a history after one more operation. */
  lemma FlattenSnoc(operations: seq<Operation>, i: nat)
    requires i < |operations|
    ensures Flatten(operations[..i + 1]) == Flatten(operations[..i]) + SymbolsOf(operations[i])
  {
    FlattenLast(operations[..i], operations[i]);
    assert operations[..i + 1] == operations[..i] + [operations[i]];
  }

  /** `canonical_operations` as written: one pass that extends the last byte run in place. */
  method CanonicalOperations(operations: seq<Operation>) returns (canonical: seq<Operation>)
    requires NoEmptyOutput(operations)
    ensures canonical == Grouped(Flatten(operations))
  {
    canonical := [];
    for i := 0 to |operations|
      invariant canonical == Grouped(Flatten(operations[..i]))
    {
      var operation := operations[i];
      MergeIsGrouped(Flatten(operations[..i]), operation);
      FlattenSnoc(operations, i);
      if canonical != [] && canonical[|canonical| - 1].Output? && operation.Output? {
        var last := |canonical| - 1;
        canonical := canonical[..last] + [Output(canonical[last].bytes + operation.bytes)];
      } else {
        canonical := canonical + [operation];
      }
    }
    assert operations[..|operations|] == operations;
  }

  // ---- Prefixes -------------------------------------------------------------

  /** What is left of a history after `index` whole operations and `offset` bytes of the next. */
  function Remainder(operations: seq<Operation>, index: nat, offset: nat): seq<Symbol>
    requires index <= |operations|
    requires offset == 0 || (index < |operations| && operations[index].Output? && offset <= |operations[index].bytes|)
  {
    if offset == 0 then Flatten(operations[index..])
    else BytesAsSymbols(operations[index].bytes[offset..]) + Flatten(operations[index + 1..])
  }

  /** A byte run at the front of one canonical history and something else, or nothing, in the other. */
  lemma FrontsDiffer(target: seq<Operation>, delivered: seq<Operation>)
    requires IsCanonical(target) && IsCanonical(delivered) && delivered != []
    requires target == [] || (target[0] != delivered[0] && !(target[0].Output? && delivered[0].Output?))
    ensures !(Flatten(delivered) <= Flatten(target))
  {
    var d := Flatten(delivered);
    assert d[0] == SymbolsOf(delivered[0])[0];
    if target != [] { assert Flatten(target)[0] == SymbolsOf(target[0])[0]; }
  }

  /** A run that stops early and ends its history is a prefix, and the rest of the longer run remains. */
  lemma StopsEarly(target: seq<Operation>, delivered: seq<Operation>)
    requires target != [] && |delivered| == 1 && target[0].Output? && delivered[0].Output?
    requires delivered[0].bytes <= target[0].bytes && delivered[0].bytes != []
    ensures Flatten(delivered) <= Flatten(target)
    ensures Flatten(target)[|Flatten(delivered)|..] == Remainder(target, 0, |delivered[0].bytes|)
  {
    var t, d := target[0].bytes, delivered[0].bytes;
    var head := BytesAsSymbols(d);
    assert Flatten(delivered) == head by {
      assert delivered == [] + [delivered[0]];
      FlattenLast([], delivered[0]);
    }
    assert BytesAsSymbols(t) == head + BytesAsSymbols(t[|d|..]);
    PrefixOfThree(head, BytesAsSymbols(t[|d|..]), Flatten(target[1..]));
  }

  lemma PrefixOfThree<T>(a: seq<T>, b: seq<T>, c: seq<T>)
    ensures a <= a + b + c && (a + b + c)[|a|..] == b + c
  {
  }

  /** Two byte runs face each other and differ: only a run that merely stops early can still be a prefix. */
  lemma RunsDiffer(target: seq<Operation>, delivered: seq<Operation>)
    requires IsCanonical(target) && IsCanonical(delivered) && target != [] && delivered != []
    requires target[0].Output? && delivered[0].Output? && target[0] != delivered[0]
    requires !(delivered[0].bytes <= target[0].bytes && |delivered| == 1)
    ensures !(Flatten(delivered) <= Flatten(target))
  {
    var t, d := target[0].bytes, delivered[0].bytes;
    FirstAfterRun(target);
    FirstAfterRun(delivered);
    if i: nat :| i < |t| && i < |d| && t[i] != d[i] {
      NotPrefixAt(Flatten(delivered), Flatten(target), i);
    } else {
      NotPrefixAt(Flatten(delivered), Flatten(target), Min(|t|, |d|));
    }
  }

  lemma NotPrefixAt<T>(a: seq<T>, b: seq<T>, i: nat)
    requires i < |a| && (i >= |b| || a[i] != b[i])
    ensures !(a <= b)
  {
  }

  /** After a leading byte run a canonical history ends or goes on with something else. */
  lemma FirstAfterRun(operations: seq<Operation>)
    requires IsCanonical(operations) && operations != [] && operations[0].Output?
    ensures var n := |operations[0].bytes|;
            && n <= |Flatten(operations)|
            && (forall i :: 0 <= i < n ==> Flatten(operations)[i] == Byte(operations[0].bytes[i]))
            && (|operations| == 1 ==> |Flatten(operations)| == n)
            && (|operations| > 1 ==> |Flatten(operations)| > n && !Flatten(operations)[n].Byte?)
  {
    if |operations| > 1 {
      assert operations[1..][0] == operations[1];
      assert Flatten(operations)[|operations[0].bytes|] == Flatten(operations[1..])[0];
    }
  }

  lemma CanonicalTail(operations: seq<Operation>)
    requires IsCanonical(operations) && operations != []
    ensures IsCanonical(operations[1..])
  {
  }

  lemma DropFront<T>(front: seq<T>, a: seq<T>, b: seq<T>)
    ensures front + a <= front + b <==> a <= b
    ensures a <= b ==> (front + b)[|front + a|..] == b[|a|..]
  {
    if front + a <= front + b {
      forall i | 0 <= i < |a| ensures a[i] == b[i] {
        assert (front + a)[|front| + i] == (front + b)[|front| + i];
      }
    }
  }

  /**
   `history_suffix_start` as written. On canonical histories it succeeds exactly
   when the delivered symbols are a prefix of the target's, and then its index
   and offset select exactly the remainder.
   */
  method HistorySuffixStart(target: seq<Operation>, delivered: seq<Operation>) returns (r: Option<(nat, nat)>)
    requires IsCanonical(target) && IsCanonical(delivered)
    ensures r.Some? <==> Flatten(delivered) <= Flatten(target)
    ensures r.Some? ==>
        var (index, offset) := r.value;
        && index <= |target|
        && (offset == 0 || (index < |target| && target[index].Output? && offset <= |target[index].bytes|))
        && Remainder(target, index, offset) == Flatten(target)[|Flatten(delivered)|..]
  {
    var index := 0;
    while index < |delivered|
      invariant 0 <= index <= |delivered| && index <= |target|
      invariant IsCanonical(target[index..]) && IsCanonical(delivered[index..])
      invariant Flatten(delivered) <= Flatten(target) <==> Flatten(delivered[index..]) <= Flatten(target[index..])
      invariant Flatten(delivered) <= Flatten(target) ==>
          Flatten(target)[|Flatten(delivered)|..] == Flatten(target[index..])[|Flatten(delivered[index..])|..]
    {
      var t, d := target[index..], delivered[index..];
      if index >= |target| {
        FrontsDiffer(t, d);
        return None;
      }
      DropTwice(target, index, 1);
      DropTwice(delivered, index, 1);
      if target[index] == delivered[index] {
        CanonicalTail(t);
        CanonicalTail(d);
        DropFront(SymbolsOf(target[index]), Flatten(d[1..]), Flatten(t[1..]));
      } else if target[index].Output? && delivered[index].Output? {
        if !(delivered[index].bytes <= target[index].bytes) || index + 1 != |delivered| {
          RunsDiffer(t, d);
          return None;
        }
        StopsEarly(t, d);
        return Some((index, |delivered[index].bytes|));
      } else {
        FrontsDiffer(t, d);
        return None;
      }
      index := index + 1;
    }
    assert delivered[|delivered|..] == [];
    assert [] <= Flatten(target[index..]);
    return Some((|delivered|, 0));
  }

  // ---- Longest common prefix ------------------------------------------------

  /** How many leading elements two sequences share. */
  function CommonLength<T(==)>(a: seq<T>, b: seq<T>): (n: nat)
    ensures n <= |a| && n <= |b| && a[..n] == b[..n]
    ensures n == |a| || n == |b| || a[n] != b[n]
  {
    if a == [] || b == [] || a[0] != b[0] then 0 else 1 + CommonLength(a[1..], b[1..])
  }

  lemma CommonLengthIsUnique<T>(a: seq<T>, b: seq<T>, n: nat)
    requires n <= |a| && n <= |b| && a[..n] == b[..n]
    requires n == |a| || n == |b| || a[n] != b[n]
    ensures CommonLength(a, b) == n
  {
    SharedElements(a, b, n);
    SharedElements(a, b, CommonLength(a, b));
  }

  lemma SharedElements<T>(a: seq<T>, b: seq<T>, n: nat)
    requires n <= |a| && n <= |b| && a[..n] == b[..n]
    ensures forall i :: 0 <= i < n ==> a[i] == b[i]
  {
    forall i | 0 <= i < n ensures a[i] == b[i] {
      assert a[..n][i] == b[..n][i];
    }
  }

  /** Nothing more is shared at the front of the two tails. */
  predicate Apart<T(==)>(a: seq<T>, b: seq<T>) {
    a == [] || b == [] || a[0] != b[0]
  }

  lemma SplitAtCommonLength<T>(common: seq<T>, a: seq<T>, b: seq<T>)
    requires Apart(a, b)
    ensures CommonLength(common + a, common + b) == |common|
    ensures b == [] <==> common + b <= common + a
  {
    DropPrefix(common, a);
    DropPrefix(common, b);
    CommonLengthIsUnique(common + a, common + b, |common|);
    DropFront(common, b, a);
  }

  method CommonBytes(a: seq<byte>, b: seq<byte>) returns (n: nat)
    ensures n == CommonLength(a, b)
  {
    n := 0;
    while n < |a| && n < |b| && a[n] == b[n]
      invariant n <= |a| && n <= |b| && a[..n] == b[..n]
    {
      n := n + 1;
    }
    CommonLengthIsUnique(a, b, n);
  }

  /** The three pieces `split_common_history` returns: a common part and what follows it on either side. */
  ghost predicate Splits(common: seq<Operation>, tail: seq<Operation>, whole: seq<Operation>) {
    Flatten(common) + Flatten(tail) == Flatten(whole) && NoEmptyOutput(tail)
  }

  lemma SplitsAtIndex(whole: seq<Operation>, index: nat)
    requires index <= |whole| && IsCanonical(whole)
    ensures Splits(whole[..index], whole[index..], whole)
  {
    FlattenConcat(whole[..index], whole[index..]);
    assert whole[..index] + whole[index..] == whole;
  }

  /** Cuts the byte run at `index` after `n` bytes. */
  method CutRun(whole: seq<Operation>, index: nat, n: nat, common: seq<Operation>) returns (tail: seq<Operation>)
    requires IsCanonical(whole) && index < |whole| && whole[index].Output? && n <= |whole[index].bytes|
    requires Flatten(common) == Flatten(whole[..index]) + BytesAsSymbols(whole[index].bytes[..n])
    ensures Splits(common, tail, whole)
    ensures n < |whole[index].bytes| ==> Flatten(tail) != [] && Flatten(tail)[0] == Byte(whole[index].bytes[n])
    ensures n == |whole[index].bytes| ==> tail == whole[index + 1..]
  {
    var bytes := whole[index].bytes;
    var rest := whole[index + 1..];
    CutSymbols(whole, index, n);
    tail := [];
    if n != |bytes| {
      tail := [Output(bytes[n..])];
    }
    assert n != |bytes| ==> (tail + rest)[1..] == rest;
    assert n == |bytes| ==> tail + rest == rest;
    tail := tail + rest;
  }

  lemma CutSymbols(whole: seq<Operation>, index: nat, n: nat)
    requires IsCanonical(whole) && index < |whole| && whole[index].Output? && n <= |whole[index].bytes|
    ensures var bytes := whole[index].bytes;
            Flatten(whole) == Flatten(whole[..index]) + BytesAsSymbols(bytes[..n])
                              + (BytesAsSymbols(bytes[n..]) + Flatten(whole[index + 1..]))
  {
    var bytes := whole[index].bytes;
    var front, rest := Flatten(whole[..index]), Flatten(whole[index + 1..]);
    SplitsAtIndex(whole, index);
    DropTwice(whole, index, 1);
    assert bytes == bytes[..n] + bytes[n..];
    RunsJoin(front, bytes[..n], bytes[n..]);
    Associate(front, BytesAsSymbols(bytes), rest);
    Associate(front + BytesAsSymbols(bytes[..n]), BytesAsSymbols(bytes[n..]), rest);
  }

  /** `split_common_history` as written: the longest common prefix, and both tails. */
  method SplitCommonHistory(target: seq<Operation>, delivered: seq<Operation>)
    returns (common: seq<Operation>, targetTail: seq<Operation>, deliveredTail: seq<Operation>)
    requires IsCanonical(target) && IsCanonical(delivered)
    ensures Splits(common, targetTail, target) && Splits(common, deliveredTail, delivered)
    ensures |Flatten(common)| == CommonLength(Flatten(target), Flatten(delivered))
    ensures deliveredTail == [] <==> Flatten(delivered) <= Flatten(target)
  {
    common := [];
    var index := 0;
    while index < |target| && index < |delivered|
      invariant 0 <= index <= |target| && index <= |delivered|
      invariant common == target[..index] == delivered[..index]
    {
      if target[index] == delivered[index] {
        common := common + [target[index]];
        index := index + 1;
        continue;
      }
      if target[index].Output? && delivered[index].Output? {
        var t, d := target[index].bytes, delivered[index].bytes;
        var n := CommonBytes(t, d);
        ghost var before := common;
        if n != 0 {
          common := common + [Output(t[..n])];
          FlattenLast(before, Output(t[..n]));
        } else {
          assert Flatten(before) + BytesAsSymbols(t[..0]) == Flatten(before);
        }
        targetTail := CutRun(target, index, n, common);
        deliveredTail := CutRun(delivered, index, n, common);
        TailsApart(target, delivered, index, n, targetTail, deliveredTail);
        SplitAtCommonLength(Flatten(common), Flatten(targetTail), Flatten(deliveredTail));
        return;
      }
      break;
    }
    targetTail, deliveredTail := target[index..], delivered[index..];
    SplitsAtIndex(target, index);
    SplitsAtIndex(delivered, index);
    FirstSymbol(targetTail);
    FirstSymbol(deliveredTail);
    SplitAtCommonLength(Flatten(common), Flatten(targetTail), Flatten(deliveredTail));
  }

  lemma FirstSymbol(operations: seq<Operation>)
    requires NoEmptyOutput(operations)
    ensures Flatten(operations) == [] <==> operations == []
    ensures operations != [] ==> Flatten(operations)[0] == SymbolsOf(operations[0])[0]
  {
  }

  /** Where two byte runs part, the tails share nothing more. */
  lemma TailsApart(target: seq<Operation>, delivered: seq<Operation>, index: nat, n: nat,
                   targetTail: seq<Operation>, deliveredTail: seq<Operation>)
    requires IsCanonical(target) && IsCanonical(delivered) && index < |target| && index < |delivered|
    requires target[index].Output? && delivered[index].Output? && target[index] != delivered[index]
    requires n == CommonLength(target[index].bytes, delivered[index].bytes)
    requires NoEmptyOutput(targetTail) && NoEmptyOutput(deliveredTail)
    requires n < |target[index].bytes| ==>
             Flatten(targetTail) != [] && Flatten(targetTail)[0] == Byte(target[index].bytes[n])
    requires n == |target[index].bytes| ==> targetTail == target[index + 1..]
    requires n < |delivered[index].bytes| ==>
             Flatten(deliveredTail) != [] && Flatten(deliveredTail)[0] == Byte(delivered[index].bytes[n])
    requires n == |delivered[index].bytes| ==> deliveredTail == delivered[index + 1..]
    ensures Apart(Flatten(targetTail), Flatten(deliveredTail))
    ensures deliveredTail == [] <==> Flatten(deliveredTail) == []
  {
    FirstSymbol(targetTail);
    FirstSymbol(deliveredTail);
    var t, d := target[index].bytes, delivered[index].bytes;
    if n == |t| && n == |d| { assert t[..n] == t && d[..n] == d; }
  }
}
