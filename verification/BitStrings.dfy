/** Decoding measurement outcomes: bit strings are written with qubit 0 rightmost. */
module BitStrings {

  // ----- sorted support lists -----

  function InsertSorted(x: nat, s: seq<nat>): seq<nat> {
    if s == [] || x <= s[0] then [x] + s else [s[0]] + InsertSorted(x, s[1..])
  }

  /** std::sort */
  function Sort(s: seq<nat>): seq<nat> {
    if s == [] then [] else InsertSorted(s[0], Sort(s[1..]))
  }

  predicate Ascending(s: seq<nat>) {
    forall i, j :: 0 <= i < j < |s| ==> s[i] <= s[j]
  }

  predicate StrictlyAscending(s: seq<nat>) {
    forall i, j :: 0 <= i < j < |s| ==> s[i] < s[j]
  }

  predicate Distinct(s: seq<nat>) {
    forall i, j :: 0 <= i < j < |s| ==> s[i] != s[j]
  }

  lemma ConsAscending(x: nat, s: seq<nat>)
    requires Ascending(s) && forall v :: v in s ==> x <= v
    ensures Ascending([x] + s)
  {
    var r := [x] + s;
    forall i, j | 0 <= i < j < |r|
      ensures r[i] <= r[j]
    {
      assert r[j] == s[j - 1] && s[j - 1] in s;
      assert i > 0 ==> r[i] == s[i - 1];
    }
  }

  lemma {:induction false} InsertSortedCounts(x: nat, s: seq<nat>)
    ensures multiset(InsertSorted(x, s)) == multiset(s) + multiset{x} && |InsertSorted(x, s)| == |s| + 1
  {
    if s == [] || x <= s[0] {
      assert multiset([x] + s) == multiset([x]) + multiset(s);
    } else {
      InsertSortedCounts(x, s[1..]);
      assert s == [s[0]] + s[1..];
      assert multiset([s[0]] + InsertSorted(x, s[1..])) == multiset([s[0]]) + multiset(InsertSorted(x, s[1..]));
    }
  }

  lemma InsertSortedMembers(x: nat, s: seq<nat>)
    ensures forall v :: v in InsertSorted(x, s) <==> v == x || v in s
  {
    InsertSortedCounts(x, s);
    assert forall v :: v in InsertSorted(x, s) <==> v in multiset(InsertSorted(x, s));
    assert forall v :: v in s <==> v in multiset(s);
  }

  lemma {:induction false} InsertSortedSorts(x: nat, s: seq<nat>)
    requires Ascending(s)
    ensures Ascending(InsertSorted(x, s))
  {
    if s == [] || x <= s[0] {
      ConsAscending(x, s);
    } else {
      var rest := s[1..];
      assert forall i :: 0 <= i < |rest| ==> rest[i] == s[i + 1];
      InsertSortedSorts(x, rest);
      InsertSortedMembers(x, rest);
      ConsAscending(s[0], InsertSorted(x, rest));
    }
  }

  lemma {:induction false} SortCounts(s: seq<nat>)
    ensures multiset(Sort(s)) == multiset(s) && |Sort(s)| == |s|
  {
    if s != [] {
      SortCounts(s[1..]);
      InsertSortedCounts(s[0], Sort(s[1..]));
      assert s == [s[0]] + s[1..];
      assert multiset(s) == multiset([s[0]]) + multiset(s[1..]);
    }
  }

  lemma {:induction false} SortAscends(s: seq<nat>)
    ensures Ascending(Sort(s))
  {
    if s != [] {
      SortAscends(s[1..]);
      InsertSortedSorts(s[0], Sort(s[1..]));
    }
  }

  /** Sorting gives an ascending permutation. */
  lemma SortSorts(s: seq<nat>)
    ensures Ascending(Sort(s)) && multiset(Sort(s)) == multiset(s) && |Sort(s)| == |s|
    ensures forall x :: x in Sort(s) <==> x in s
  {
    SortCounts(s);
    SortAscends(s);
    assert forall x :: x in Sort(s) <==> x in multiset(Sort(s));
    assert forall x :: x in s <==> x in multiset(s);
  }

  lemma SortInRange(s: seq<nat>, size: nat)
    requires InRange(s, size)
    ensures InRange(Sort(s), size) && |Sort(s)| == |s|
  {
    SortSorts(s);
    forall k | 0 <= k < |Sort(s)|
      ensures Sort(s)[k] < size
    {
      assert Sort(s)[k] in Sort(s);
    }
  }

  lemma DistinctByCounts(s: seq<nat>)
    ensures Distinct(s) <==> forall x :: multiset(s)[x] <= 1
    decreases |s|
  {
    if s != [] {
      var rest := s[1..];
      DistinctByCounts(rest);
      assert s == [s[0]] + rest;
      assert multiset(s) == multiset{s[0]} + multiset(rest);
      assert multiset(rest)[s[0]] == 0 <==> s[0] !in rest;
      assert Distinct(s) <==> s[0] !in rest && Distinct(rest) by {
        assert forall i :: 0 <= i < |rest| ==> rest[i] == s[i + 1];
      }
      if Distinct(s) {
        forall x ensures multiset(s)[x] <= 1 {
        }
      } else if s[0] in rest {
        assert multiset(s)[s[0]] >= 2;
      } else {
        var x :| multiset(rest)[x] > 1;
        assert multiset(s)[x] > 1;
      }
    }
  }

  lemma SortDistinct(s: seq<nat>)
    requires Distinct(s)
    ensures StrictlyAscending(Sort(s)) && Distinct(Sort(s))
  {
    SortSorts(s);
    DistinctByCounts(s);
    DistinctByCounts(Sort(s));
  }

  /** A list is its own sorting exactly if it is ascending. */
  lemma SortFixpoint(s: seq<nat>)
    ensures Sort(s) == s <==> Ascending(s)
  {
    SortSorts(s);
    if Ascending(s) {
      AscendingSort(s);
    }
  }

  lemma {:induction false} AscendingSort(s: seq<nat>)
    requires Ascending(s)
    ensures Sort(s) == s
  {
    if s != [] {
      AscendingSort(s[1..]);
      assert s == [s[0]] + s[1..];
    }
  }

  // ----- the scatter loop -----

  function Zeros(size: nat): string {
    seq(size, _ => '0')
  }

  /** The first n elements of supports are positions in a string of this size. */
  predicate InRange(supports: seq<nat>, size: nat) {
    forall k :: 0 <= k < |supports| ==> supports[k] < size
  }

  /** The string after k writes: the k-th bit from the right goes to the k-th supported qubit. */
  function Scattered(bits: string, supports: seq<nat>, size: nat, k: nat): (r: string)
    requires k <= |bits| <= |supports| && InRange(supports, size)
    ensures |r| == size
  {
    if k == 0 then Zeros(size)
    else Scattered(bits, supports, size, k - 1)[size - 1 - supports[k - 1] := bits[|bits| - k]]
  }

  /** An outcome the decoder can place: one supported qubit for every bit. */
  predicate Placeable(bits: string, supports: seq<nat>, size: nat) {
    |bits| < size ==> |bits| <= |supports| && InRange(supports, size)
  }

  /** The decoding of one simulator outcome: scattered if it is shorter than the buffer. */
  function Decode(bits: string, supports: seq<nat>, size: nat): string
    requires Placeable(bits, supports, size)
  {
    if |bits| < size then
      SortInRange(supports, size);
      Scattered(bits, Sort(supports), size, |bits|)
    else bits
  }

  method DecodeSimulator(bitString: string, supports: seq<nat>, size: nat) returns (r: string)
    requires Placeable(bitString, supports, size)
    ensures r == Decode(bitString, supports, size)
  {
    r := bitString;
    if |bitString| < size {
      var s := "";
      for i := 0 to size
        invariant s == Zeros(i)
      {
        s := s + "0";
      }
      SortInRange(supports, size);
      var sorted := Sort(supports);
      var counter := 0;
      var i := |bitString| - 1;
      while i >= 0
        invariant -1 <= i < |bitString| && counter == |bitString| - 1 - i
        invariant s == Scattered(bitString, sorted, size, counter)
      {
        s := s[size - 1 - sorted[counter] := bitString[i]];
        counter := counter + 1;
        i := i - 1;
      }
      r := s;
    }
  }

  lemma {:induction false} ScatteredAt(bits: string, supports: seq<nat>, size: nat, k: nat)
    requires k <= |bits| <= |supports| && InRange(supports, size) && Distinct(supports)
    ensures forall j :: 0 <= j < k ==> Scattered(bits, supports, size, k)[size - 1 - supports[j]] == bits[|bits| - 1 - j]
    ensures forall p :: 0 <= p < size && size - 1 - p !in supports[..k] ==> Scattered(bits, supports, size, k)[p] == '0'
  {
    if k > 0 {
      ScatteredAt(bits, supports, size, k - 1);
      assert supports[..k] == supports[..k - 1] + [supports[k - 1]];
    }
  }

  /** Reading the supported positions, highest first. */
  function Gather(s: string, supports: seq<nat>): string
    requires InRange(supports, |s|)
  {
    seq(|supports|, j requires 0 <= j < |supports| => s[|s| - 1 - supports[|supports| - 1 - j]])
  }

  lemma GatherInverts(d: string, s: seq<nat>, bits: string)
    requires |bits| == |s| && InRange(s, |d|)
    requires forall k :: 0 <= k < |s| ==> d[|d| - 1 - s[k]] == bits[|bits| - 1 - k]
    ensures Gather(d, s) == bits
  {
    forall j | 0 <= j < |s|
      ensures Gather(d, s)[j] == bits[j]
    {
      assert bits[|bits| - 1 - (|s| - 1 - j)] == bits[j];
    }
  }

  lemma ScatteredExact(bits: string, s: seq<nat>, size: nat)
    requires |bits| == |s| && InRange(s, size) && Distinct(s)
    ensures var d := Scattered(bits, s, size, |bits|);
            && (forall q :: 0 <= q < size && q !in s ==> d[size - 1 - q] == '0')
            && (forall k :: 0 <= k < |s| ==> d[size - 1 - s[k]] == bits[|bits| - 1 - k])
            && Gather(d, s) == bits
  {
    hide Scattered, Gather;
    ScatteredAt(bits, s, size, |bits|);
    assert s[..|bits|] == s;
    GatherInverts(Scattered(bits, s, size, |bits|), s, bits);
  }

  lemma SortMembers(s: seq<nat>)
    ensures forall x :: x in Sort(s) <==> x in s
  {
    SortSorts(s);
  }

  /** Scattering puts the k-th bit from the right at the k-th smallest supported qubit and '0'
      everywhere else, and gathering the supported positions gives the outcome back. */
  lemma ScatterIsExact(bits: string, supports: seq<nat>, size: nat)
    requires |bits| == |supports| < size && InRange(supports, size) && Distinct(supports)
    ensures |Sort(supports)| == |supports| && |Decode(bits, supports, size)| == size
    ensures var d, s := Decode(bits, supports, size), Sort(supports);
            && StrictlyAscending(s) && InRange(s, size)
            && (forall q :: 0 <= q < size && q !in supports ==> d[size - 1 - q] == '0')
            && (forall k :: 0 <= k < |s| ==> d[size - 1 - s[k]] == bits[|bits| - 1 - k])
            && Gather(d, s) == bits
  {
    hide Scattered, Gather, StrictlyAscending, Distinct;
    SortMembers(supports);
    SortInRange(supports, size);
    SortDistinct(supports);
    ScatteredExact(bits, Sort(supports), size);
  }

  /** Different outcomes of the same length decode differently. */
  lemma DecodeIsInjective(a: string, b: string, supports: seq<nat>, size: nat)
    requires |a| == |b| && (|a| < size ==> |a| == |supports| && InRange(supports, size) && Distinct(supports))
    requires Decode(a, supports, size) == Decode(b, supports, size)
    ensures a == b
  {
    if |a| < size {
      ScatterIsExact(a, supports, size);
      ScatterIsExact(b, supports, size);
    }
  }

  /** Of two writes to one place only the later is seen. */
  lemma {:induction false} OverwrittenWrite(a: string, b: string, supports: seq<nat>, size: nat, j: nat, k: nat)
    requires |a| == |b| == |supports| && InRange(supports, size) && j + 1 < |supports| && k <= |supports|
    requires supports[j] == supports[j + 1]
    requires forall i :: 0 <= i < |a| && i != |a| - 1 - j ==> a[i] == b[i]
    requires k <= j || k >= j + 2
    ensures Scattered(a, supports, size, k) == Scattered(b, supports, size, k)
  {
    if k == j + 2 {
      OverwrittenWrite(a, b, supports, size, j, j);
      var s, p := Scattered(a, supports, size, j), size - 1 - supports[j];
      assert s[p := a[|a| - 1 - j]][p := a[|a| - 2 - j]] == s[p := b[|a| - 1 - j]][p := b[|a| - 2 - j]];
      assert Scattered(a, supports, size, j + 2) == Scattered(a, supports, size, j + 1)[p := a[|a| - (j + 2)]];
      assert Scattered(b, supports, size, j + 2) == Scattered(b, supports, size, j + 1)[p := b[|b| - (j + 2)]];
    } else if k > 0 {
      OverwrittenWrite(a, b, supports, size, j, k - 1);
    }
  }

  ghost predicate DecodesInjectively(supports: seq<nat>, size: nat)
    requires |supports| < size && InRange(supports, size)
  {
    forall a, b :: |a| == |b| == |supports| && Decode(a, supports, size) == Decode(b, supports, size) ==> a == b
  }

  /** Different outcomes stay different exactly if no qubit was measured twice. */
  lemma DecodesInjectivelyIff(supports: seq<nat>, size: nat)
    requires |supports| < size && InRange(supports, size)
    ensures DecodesInjectively(supports, size) <==> Distinct(supports)
  {
    if Distinct(supports) {
      forall a, b | |a| == |b| == |supports| && Decode(a, supports, size) == Decode(b, supports, size)
        ensures a == b
      {
        DecodeIsInjective(a, b, supports, size);
      }
    } else {
      SortInRange(supports, size);
      SortSorts(supports);
      DistinctByCounts(supports);
      DistinctByCounts(Sort(supports));
      var s := Sort(supports);
      var j := AdjacentEqual(s);
      var a := Zeros(|s|);
      var b := a[|s| - 1 - j := '1'];
      OverwrittenWrite(a, b, s, size, j, |s|);
      assert Decode(a, supports, size) == Decode(b, supports, size) && a[|s| - 1 - j] != b[|s| - 1 - j];
    }
  }

  lemma AdjacentEqual(s: seq<nat>) returns (j: nat)
    requires Ascending(s) && !Distinct(s)
    ensures j + 1 < |s| && s[j] == s[j + 1]
  {
    var i, k :| 0 <= i < k < |s| && s[i] == s[k];
    j := i;
    assert s[i] <= s[i + 1] <= s[k];
  }

  // ----- counting ones -----

  function Ones(s: string): nat {
    if s == "" then 0 else (if s[0] == '1' then 1 else 0) + Ones(s[1..])
  }

  lemma {:induction false} OnesConcat(a: string, b: string)
    ensures Ones(a + b) == Ones(a) + Ones(b)
  {
    if a == "" {
      assert a + b == b;
    } else {
      assert (a + b)[1..] == a[1..] + b;
      OnesConcat(a[1..], b);
    }
  }

  lemma OnesUpdate(s: string, p: nat, c: char)
    requires p < |s|
    ensures Ones(s[p := c]) + (if s[p] == '1' then 1 else 0) == Ones(s) + (if c == '1' then 1 else 0)
  {
    assert s == s[..p] + ([s[p]] + s[p + 1..]) && s[p := c] == s[..p] + ([c] + s[p + 1..]);
    OnesConcat(s[..p], [s[p]] + s[p + 1..]);
    OnesConcat(s[..p], [c] + s[p + 1..]);
    OnesConcat([s[p]], s[p + 1..]);
    OnesConcat([c], s[p + 1..]);
    assert [s[p]][1..] == "" && [c][1..] == "";
  }

  lemma {:induction false} ZerosHaveNoOnes(size: nat)
    ensures Ones(Zeros(size)) == 0
  {
    if size > 0 {
      assert Zeros(size)[1..] == Zeros(size - 1);
      ZerosHaveNoOnes(size - 1);
    }
  }

  lemma {:induction false} ScatteredOnes(bits: string, supports: seq<nat>, size: nat, k: nat)
    requires k <= |bits| <= |supports| && InRange(supports, size) && Distinct(supports)
    ensures Ones(Scattered(bits, supports, size, k)) == Ones(bits[|bits| - k..])
  {
    if k == 0 {
      ZerosHaveNoOnes(size);
    } else {
      var s, p := Scattered(bits, supports, size, k - 1), size - 1 - supports[k - 1];
      ScatteredOnes(bits, supports, size, k - 1);
      ScatteredAt(bits, supports, size, k - 1);
      assert s[p] == '0';
      OnesUpdate(s, p, bits[|bits| - k]);
      assert bits[|bits| - k..] == [bits[|bits| - k]] + bits[|bits| - (k - 1)..];
      OnesConcat([bits[|bits| - k]], bits[|bits| - (k - 1)..]);
      assert [bits[|bits| - k]][1..] == "";
    }
  }

  /** Decoding keeps the number of ones, and so the parity. */
  lemma DecodeKeepsOnes(bits: string, supports: seq<nat>, size: nat)
    requires |bits| < size ==> |bits| == |supports| && InRange(supports, size) && Distinct(supports)
    ensures Ones(Decode(bits, supports, size)) == Ones(bits)
  {
    if |bits| < size {
      SortInRange(supports, size);
      SortDistinct(supports);
      ScatteredOnes(bits, Sort(supports), size, |bits|);
      assert bits[|bits| - |bits|..] == bits;
    }
  }

  // ----- which qubit's outcome a decoded bit shows -----

  function Bit(b: bool): char {
    if b then '1' else '0'
  }

  /** The raw string for the qubits measured in this order: measurement k is bit k from the right. */
  ghost function Raw(order: seq<nat>, outcome: nat -> bool): string {
    seq(|order|, j requires 0 <= j < |order| => Bit(outcome(order[|order| - 1 - j])))
  }

  /** The decoded string shows, at the position of the qubit measured k-th, that qubit's own result. */
  ghost predicate ShowsOwn(order: seq<nat>, size: nat, outcome: nat -> bool, k: nat)
    requires |order| <= size && InRange(order, size) && k < |order|
  {
    var d := Decode(Raw(order, outcome), order, size);
    |d| == size && d[size - 1 - order[k]] == Bit(outcome(order[k]))
  }

  ghost predicate ShowsOwnOutcomes(order: seq<nat>, size: nat)
    requires |order| <= size && InRange(order, size)
  {
    forall outcome: nat -> bool, k: nat :: k < |order| ==> ShowsOwn(order, size, outcome, k)
  }

  lemma {:induction false} AscendingBounds(s: seq<nat>, size: nat, k: nat)
    requires StrictlyAscending(s) && InRange(s, size) && k < |s|
    ensures k <= s[k] <= size - |s| + k
  {
    if k > 0 {
      AscendingLower(s, k);
    }
    AscendingUpper(s, size, k);
  }

  lemma {:induction false} AscendingLower(s: seq<nat>, k: nat)
    requires StrictlyAscending(s) && k < |s|
    ensures k <= s[k]
  {
    if k > 0 {
      AscendingLower(s, k - 1);
    }
  }

  lemma {:induction false} AscendingUpper(s: seq<nat>, size: nat, k: nat)
    requires StrictlyAscending(s) && InRange(s, size) && k < |s|
    ensures s[k] <= size - |s| + k
    decreases |s| - k
  {
    if k + 1 < |s| {
      AscendingUpper(s, size, k + 1);
    }
  }

  lemma DecodedRawShort(order: seq<nat>, size: nat, outcome: nat -> bool, k: nat)
    requires |order| < size && InRange(order, size) && Distinct(order) && k < |order|
    ensures |Sort(order)| == |order| && |Decode(Raw(order, outcome), order, size)| == size
    ensures Sort(order)[k] < size
    ensures Decode(Raw(order, outcome), order, size)[size - 1 - Sort(order)[k]] == Bit(outcome(order[k]))
  {
    var raw := Raw(order, outcome);
    assert |raw| == |order| && raw[|raw| - 1 - k] == Bit(outcome(order[k]));
    hide Sort, Decode, Scattered, Gather, Raw, Bit;
    ScatterIsExact(raw, order, size);
  }

  lemma DecodedRawFull(order: seq<nat>, size: nat, outcome: nat -> bool, k: nat)
    requires |order| == size && InRange(order, size) && Distinct(order) && k < |order|
    ensures |Sort(order)| == |order| && |Decode(Raw(order, outcome), order, size)| == size
    ensures Sort(order)[k] < size
    ensures Decode(Raw(order, outcome), order, size)[size - 1 - Sort(order)[k]] == Bit(outcome(order[k]))
  {
    hide Sort, Bit;
    SortInRange(order, size);
    SortDistinct(order);
    AscendingBounds(Sort(order), size, k);
  }

  /** The bit shown at the k-th smallest measured qubit is the outcome of the k-th measurement. */
  lemma DecodedRaw(order: seq<nat>, size: nat, outcome: nat -> bool, k: nat)
    requires |order| <= size && InRange(order, size) && Distinct(order) && k < |order|
    ensures |Sort(order)| == |order| && |Decode(Raw(order, outcome), order, size)| == size
    ensures Sort(order)[k] < size
    ensures Decode(Raw(order, outcome), order, size)[size - 1 - Sort(order)[k]] == Bit(outcome(order[k]))
  {
    if |order| < size {
      DecodedRawShort(order, size, outcome, k);
    } else {
      DecodedRawFull(order, size, outcome, k);
    }
  }

  lemma SomeOutcomeMisplaced(order: seq<nat>, size: nat, k: nat)
    requires |order| <= size && InRange(order, size) && Distinct(order)
    requires k < |order| && |Sort(order)| == |order| && Sort(order)[k] != order[k]
    ensures !ShowsOwnOutcomes(order, size)
  {
    hide Sort, Decode, Raw;
    var q := Sort(order)[k];
    SortSorts(order);
    assert q in Sort(order) && q in order;
    var j :| 0 <= j < |order| && order[j] == q;
    var outcome := (x: nat) => x == q;
    DecodedRaw(order, size, outcome, k);
    assert !outcome(order[k]) && outcome(order[j]);
    assert !ShowsOwn(order, size, outcome, j);
  }

  lemma OutOfPlace(order: seq<nat>) returns (k: nat)
    requires Distinct(order) && !StrictlyAscending(order)
    ensures k < |order| == |Sort(order)| && Sort(order)[k] != order[k]
  {
    hide Sort;
    SortSorts(order);
    assert Sort(order) != order;
    k :| 0 <= k < |order| && Sort(order)[k] != order[k];
  }

  lemma InPlace(order: seq<nat>)
    requires StrictlyAscending(order)
    ensures Sort(order) == order && Distinct(order)
  {
    hide Sort;
    SortFixpoint(order);
  }

  /** The decoded string shows every measured qubit's own outcome, for all outcomes, exactly if the
      qubits were measured in increasing order. */
  lemma ShowsOwnOutcomesIff(order: seq<nat>, size: nat)
    requires |order| <= size && InRange(order, size) && Distinct(order)
    ensures ShowsOwnOutcomes(order, size) <==> StrictlyAscending(order)
  {
    hide Sort, Decode, Raw;
    if StrictlyAscending(order) {
      InPlace(order);
      forall outcome: nat -> bool, k: nat | k < |order|
        ensures ShowsOwn(order, size, outcome, k)
      {
        DecodedRaw(order, size, outcome, k);
      }
    } else {
      var k := OutOfPlace(order);
      SomeOutcomeMisplaced(order, size, k);
    }
  }

  // ----- trimming and masking -----

  /** The last `size` characters. */
  function Trim(bits: string, size: nat): string {
    if size < |bits| then bits[|bits| - size..] else bits
  }

  /** The bits of the supported qubits; '0' for all others. */
  function Mask(bits: string, supports: seq<nat>): (r: string)
    ensures |r| == |bits|
    ensures forall i :: 0 <= i < |r| ==> r[i] == if |bits| - 1 - i in supports then bits[i] else '0'
  {
    seq(|bits|, i requires 0 <= i < |bits| => if |bits| - 1 - i in supports then bits[i] else '0')
  }

  method TrimAndMask(bitStr: string, supportedQbits: seq<nat>, size: nat) returns (r: string)
    ensures r == Mask(Trim(bitStr, size), supportedQbits)
  {
    r := bitStr;
    if size < |r| {
      r := r[|r| - size..];
    }
    ghost var trimmed := r;
    var counter := 0;
    var i := |r| - 1;
    while i >= 0
      invariant -1 <= i < |r| && counter == |r| - 1 - i && |r| == |trimmed|
      invariant forall p :: 0 <= p <= i ==> r[p] == trimmed[p]
      invariant forall p :: i < p < |r| ==> r[p] == Mask(trimmed, supportedQbits)[p]
    {
      if counter !in supportedQbits {
        r := r[i := '0'];
      }
      counter := counter + 1;
      i := i - 1;
    }
  }

  lemma MaskIsIdempotent(bits: string, supports: seq<nat>)
    ensures Mask(Mask(bits, supports), supports) == Mask(bits, supports)
  {
  }

  /** The number of ones among the measured qubits below `size` in an untrimmed outcome. */
  function MeasuredOnes(bits: string, supports: seq<nat>, size: nat): nat {
    if bits == "" then 0
    else
      (if |bits| - 1 < size && |bits| - 1 in supports && bits[0] == '1' then 1 else 0)
      + MeasuredOnes(bits[1..], supports, size)
  }

  lemma {:induction false} MaskedOnes(bits: string, supports: seq<nat>, size: nat)
    ensures Ones(Mask(Trim(bits, size), supports)) == MeasuredOnes(bits, supports, size)
  {
    if bits != "" {
      MaskedOnes(bits[1..], supports, size);
      var t := Trim(bits, size);
      if size < |bits| {
        assert Trim(bits[1..], size) == t;
      } else {
        assert Trim(bits[1..], size) == bits[1..];
        assert Mask(bits, supports)[1..] == Mask(bits[1..], supports);
      }
    }
  }
}
