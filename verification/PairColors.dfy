/** Colours of the dashboard's featured pairs (web/src/store/marketStore.ts). */
module PairColors {
  import opened Types

  const PALETTE := ["var(--orange)", "var(--info)", "var(--up)", "var(--warn)", "var(--down)", "var(--fg-2)"]
  const SLOTS := 6

  /** A JavaScript string: a sequence of 16-bit code units, in any combination. */
  type CodeUnit = u: int | 0 <= u < 0x1_0000
  type Name = seq<CodeUnit>

  const TWO32 := 0x1_0000_0000

  /** The hash without any wrap-around. */
  function Djb2(s: Name): (h: nat) {
    if s == [] then 5381 else 33 * Djb2(s[..|s| - 1]) + s[|s| - 1]
  }

  function Power(base: nat, n: nat): nat {
    if n == 0 then 1 else base * Power(base, n - 1)
  }

  /** The hash is a polynomial in 33: what the first units contribute is multiplied
      by 33 once for every unit that follows. */
  lemma {:induction false} Djb2Concat(a: Name, b: Name)
    ensures Djb2(a + b) == (Djb2(a) - 5381) * Power(33, |b|) + Djb2(b)
  {
    if b == [] {
      assert a + b == a;
    } else {
      var n := |b| - 1;
      Djb2Concat(a, b[..n]);
      assert (a + b)[..|a| + n] == a + b[..n];
      Djb2Step(Djb2(a) - 5381, Power(33, n), Djb2(b[..n]));
    }
  }

  lemma Djb2Step(x: int, p: int, y: int)
    ensures 33 * (x * p + y) == x * (33 * p) + 33 * y
  {
  }

  lemma Djb2OfOne(c: CodeUnit)
    ensures Djb2([c]) == 177573 + c && Djb2([]) == 5381
  {
    assert [c][..0] == [];
  }

  /** The signed 32-bit integer congruent to `x`: what `| 0` and `<<` produce. */
  function ToInt32(x: int): (y: int)
    ensures -0x8000_0000 <= y < 0x8000_0000 && (y - x) % TWO32 == 0
  {
    (x + 0x8000_0000) % TWO32 - 0x8000_0000
  }

  lemma Quotient(x: int) returns (k: int)
    requires x % 0x1_0000_0000 == 0
    ensures x == k * 0x1_0000_0000
  {
    k := x / 0x1_0000_0000;
  }

  lemma MultipleHasNoRemainder(k: int)
    ensures (k * 0x1_0000_0000) % 0x1_0000_0000 == 0
  {
  }

  lemma SameResidue(x: int, y: int)
    requires (y - x) % TWO32 == 0
    ensures y % TWO32 == x % TWO32
  {
    var k := Quotient(y - x);
    assert y == x + k * 0x1_0000_0000;
  }

  /** One signed step keeps the residue of the exact hash. */
  lemma HashStep(h: int, exact: int, c: int)
    requires (h - exact) % TWO32 == 0
    ensures (ToInt32(ToInt32(h * 32) + h + c) - (33 * exact + c)) % TWO32 == 0
  {
    hide ToInt32;
    var inner := ToInt32(h * 32);
    var next := ToInt32(inner + h + c);
    var i := Quotient(next - (inner + h + c));
    var j := Quotient(inner - h * 32);
    var k := Quotient(h - exact);
    MultipleHasNoRemainder(i + j + 33 * k);
    assert next - (33 * exact + c) == (i + j + 33 * k) * 0x1_0000_0000;
  }

  /** Signed steps wrapped to 32 bits, read as unsigned at the end, are the exact
      hash reduced once. */
  method HashPair(s: Name) returns (r: nat)
    ensures r == Djb2(s) % TWO32
  {
    var h := 5381;
    var i := 0;
    while i < |s|
      invariant 0 <= i <= |s|
      invariant (h - Djb2(s[..i])) % TWO32 == 0
    {
      HashStep(h, Djb2(s[..i]), s[i]);
      assert s[..i + 1][..i] == s[..i];
      h := ToInt32(ToInt32(h * 32) + h + s[i]);
      i := i + 1;
    }
    assert s[..|s|] == s;
    SameResidue(Djb2(s), h);
    return h % TWO32;
  }

  /** The palette slot a pair would like. */
  function Preferred(pair: Name): (slot: nat)
    ensures slot < SLOTS
  {
    (Djb2(pair) % TWO32) % SLOTS
  }

  // Sorting by code unit.

  predicate LexLe(a: Name, b: Name) {
    a == [] || (b != [] && (a[0] < b[0] || (a[0] == b[0] && LexLe(a[1..], b[1..]))))
  }

  /** At position `k` the names differ for the first time, and `a` has the smaller unit. */
  ghost predicate LessAt(a: Name, b: Name, k: nat) {
    k < |a| && k < |b| && a[k] < b[k] && forall j | 0 <= j < k :: a[j] == b[j]
  }

  lemma LessAtTail(a: Name, b: Name, k: nat)
    requires a != [] && b != [] && a[0] == b[0]
    ensures LessAt(a[1..], b[1..], k) <==> LessAt(a, b, k + 1)
    ensures !LessAt(a, b, 0)
  {
    if LessAt(a[1..], b[1..], k) {
      forall j | 0 <= j < k + 1 ensures a[j] == b[j] {
        assert j > 0 ==> a[j] == a[1..][j - 1] && b[j] == b[1..][j - 1];
      }
    }
  }

  /** The first unit that differs decides; without one, the shorter name comes first. */
  lemma {:induction false} LexLeIff(a: Name, b: Name)
    ensures LexLe(a, b) <==> a <= b || exists k: nat :: LessAt(a, b, k)
  {
    if a == [] || b == [] {
    } else if a[0] == b[0] {
      LexLeIff(a[1..], b[1..]);
      assert a == [a[0]] + a[1..] && b == [b[0]] + b[1..];
      forall k: nat
        ensures LessAt(a[1..], b[1..], k) <==> LessAt(a, b, k + 1)
      {
        LessAtTail(a, b, k);
      }
      LessAtTail(a, b, 0);
      if k: nat :| LessAt(a, b, k) {
        assert LessAt(a[1..], b[1..], k - 1);
      }
    } else {
      assert a[0] < b[0] ==> LessAt(a, b, 0);
    }
  }

  lemma {:induction false} LexTotal(a: Name, b: Name)
    ensures LexLe(a, b) || LexLe(b, a)
  {
    if a == [] || b == [] || a[0] != b[0] {
    } else {
      LexTotal(a[1..], b[1..]);
    }
  }

  lemma {:induction false} LexAntisymmetric(a: Name, b: Name)
    requires LexLe(a, b) && LexLe(b, a)
    ensures a == b
  {
    if a == [] || b == [] {
    } else {
      LexAntisymmetric(a[1..], b[1..]);
      assert a == [a[0]] + a[1..] && b == [b[0]] + b[1..];
    }
  }

  lemma {:induction false} LexTransitive(a: Name, b: Name, c: Name)
    requires LexLe(a, b) && LexLe(b, c)
    ensures LexLe(a, c)
  {
    if a == [] || !(a[0] == b[0] == c[0]) {
    } else {
      LexTransitive(a[1..], b[1..], c[1..]);
    }
  }

  predicate Ordered(s: seq<Name>) {
    forall i, j :: 0 <= i < j < |s| ==> LexLe(s[i], s[j])
  }

  function InsertName(s: seq<Name>, x: Name): seq<Name> {
    if s == [] then [x]
    else if LexLe(x, s[0]) then [x] + s
    else [s[0]] + InsertName(s[1..], x)
  }

  lemma {:induction false} InsertAdds(s: seq<Name>, x: Name)
    ensures multiset(InsertName(s, x)) == multiset(s) + multiset{x}
  {
    hide LexLe;
    if s == [] {
    } else if LexLe(x, s[0]) {
    } else {
      InsertAdds(s[1..], x);
      assert s == [s[0]] + s[1..];
    }
  }

  lemma {:induction false} InsertKeepsOrder(s: seq<Name>, x: Name)
    requires Ordered(s)
    ensures Ordered(InsertName(s, x))
  {
    hide LexLe;
    if s == [] {
    } else if LexLe(x, s[0]) {
      forall j | 0 <= j < |s| ensures LexLe(x, s[j]) {
        if j > 0 {
          LexTransitive(x, s[0], s[j]);
        }
      }
    } else {
      LexTotal(x, s[0]);
      InsertKeepsOrder(s[1..], x);
      NothingBefore(s[0], s[1..], x);
    }
  }

  /** What precedes a list and the name inserted precedes the result. */
  lemma {:induction false} NothingBefore(y: Name, s: seq<Name>, x: Name)
    requires LexLe(y, x) && forall j | 0 <= j < |s| :: LexLe(y, s[j])
    ensures forall j | 0 <= j < |InsertName(s, x)| :: LexLe(y, InsertName(s, x)[j])
  {
    hide LexLe;
    if s == [] || LexLe(x, s[0]) {
    } else {
      NothingBefore(y, s[1..], x);
    }
  }

  /** The default array sort. */
  function SortNames(s: seq<Name>): (r: seq<Name>)
    ensures Ordered(r) && multiset(r) == multiset(s)
  {
    if s == [] then [] else
      assert s == [s[0]] + s[1..];
      InsertKeepsOrder(SortNames(s[1..]), s[0]);
      InsertAdds(SortNames(s[1..]), s[0]);
      InsertName(SortNames(s[1..]), s[0])
  }

  /** There is one way to order a list, so any sort returns what `SortNames` does. */
  lemma {:induction false} OrderedIsUnique(a: seq<Name>, b: seq<Name>)
    requires Ordered(a) && Ordered(b) && multiset(a) == multiset(b)
    ensures a == b
  {
    SameElements(a, b);
    if a == [] {
    } else {
      HeadIsLeast(a, b);
      HeadIsLeast(b, a);
      LexAntisymmetric(a[0], b[0]);
      TailMultiset(a);
      TailMultiset(b);
      OrderedIsUnique(a[1..], b[1..]);
    }
  }

  lemma TailMultiset(s: seq<Name>)
    requires s != []
    ensures s == [s[0]] + s[1..] && multiset(s[1..]) == multiset(s) - multiset{s[0]}
  {
    assert s == [s[0]] + s[1..];
  }

  lemma HeadIsLeast(a: seq<Name>, b: seq<Name>)
    requires Ordered(a) && multiset(a) == multiset(b) && a != [] && b != []
    ensures LexLe(a[0], b[0])
  {
    assert b[0] in multiset(a);
    LexTotal(a[0], a[0]);
  }

  // Probing.

  /** The probing loop: steps on while the slot is taken, at most `SLOTS` times. */
  function Probe(used: set<nat>, want: nat, attempts: nat): (slot: nat)
    requires want < SLOTS && attempts <= SLOTS
    ensures slot < SLOTS
    decreases SLOTS - attempts
  {
    if want in used && attempts < SLOTS then Probe(used, (want + 1) % SLOTS, attempts + 1) else want
  }

  /** The slot `j` steps clockwise from `want`. */
  function Ahead(want: nat, j: nat): (slot: nat)
    ensures slot < SLOTS
  {
    (want + j) % SLOTS
  }

  /** `slot` is the first free one clockwise from `want`, found after `k` steps. */
  ghost predicate FirstFree(used: set<nat>, want: nat, k: nat, slot: nat) {
    k < SLOTS && slot == Ahead(want, k) && slot !in used && forall j: nat :: j < k ==> Ahead(want, j) in used
  }

  ghost predicate IsFirstFree(used: set<nat>, want: nat, slot: nat) {
    exists k :: FirstFree(used, want, k, slot)
  }

  lemma AheadStep(want: nat, j: nat)
    ensures Ahead(Ahead(want, 1), j) == Ahead(want, j + 1)
  {
  }

  /** The probe ends on the first free slot, unless all those ahead are taken. */
  lemma {:induction false} ProbeFindsFirst(used: set<nat>, want: nat, attempts: nat) returns (k: nat)
    requires want < SLOTS && attempts <= SLOTS
    ensures k <= SLOTS - attempts && (forall j: nat :: j < k ==> Ahead(want, j) in used)
    ensures Probe(used, want, attempts) == Ahead(want, k)
    ensures k < SLOTS - attempts ==> Ahead(want, k) !in used
    decreases SLOTS - attempts
  {
    k := 0;
    assert Ahead(want, 0) == want;
    if want in used && attempts < SLOTS {
      var m := ProbeFindsFirst(used, Ahead(want, 1), attempts + 1);
      AheadStep(want, m);
      k := m + 1;
      forall j: nat | j < k ensures Ahead(want, j) in used {
        if j > 0 {
          AheadStep(want, j - 1);
        }
      }
    }
  }

  lemma EverySlotIsAhead(want: nat, slot: nat)
    requires want < SLOTS && slot < SLOTS
    ensures Ahead(want, (slot - want) % SLOTS) == slot
  {
  }

  /** Fewer taken slots than there are leave a free one, and the probe finds the
      first of them. */
  lemma ProbeIsFirstFree(used: set<nat>, want: nat)
    requires want < SLOTS && |used| < SLOTS
    ensures IsFirstFree(used, want, Probe(used, want, 0))
  {
    var k := ProbeFindsFirst(used, want, 0);
    if k == SLOTS {
      forall slot: nat | slot < SLOTS ensures slot in used {
        EverySlotIsAhead(want, slot);
      }
      Subset({0, 1, 2, 3, 4, 5}, used);
      assert false;
    }
    assert FirstFree(used, want, k, Probe(used, want, 0));
  }

  lemma {:induction false} Subset<T>(a: set<T>, b: set<T>)
    requires a <= b
    ensures |a| <= |b|
  {
    if a == {} {
    } else {
      var x :| x in a;
      Subset(a - {x}, b - {x});
    }
  }

  // Assignment.

  datatype Slots = Slots(used: set<nat>, assignment: map<Name, nat>)

  function Claim(s: Slots, pair: Name): Slots {
    var slot := Probe(s.used, Preferred(pair), 0);
    Slots(s.used + {slot}, s.assignment[pair := slot])
  }

  /** The slots after the pairs of `names` have claimed theirs in turn. */
  function AssignAll(names: seq<Name>): Slots {
    if names == [] then Slots({}, map[]) else Claim(AssignAll(names[..|names| - 1]), names[|names| - 1])
  }

  function AssignedIndex(pair: Name, featured: seq<Name>): Option<nat> {
    var assignment := AssignAll(SortNames(featured)).assignment;
    if pair in assignment then Some(assignment[pair]) else None
  }

  /** -1 when the pair is not featured. */
  method AssignedColorIndex(pair: Name, featured: seq<Name>) returns (r: int)
    ensures match AssignedIndex(pair, featured) case Some(slot) => r == slot case None => r == -1
  {
    hide Djb2, SortNames;
    var sorted := SortNames(featured);
    var used: set<nat> := {};
    var assignment: map<Name, nat> := map[];
    var i := 0;
    while i < |sorted|
      invariant 0 <= i <= |sorted|
      invariant Slots(used, assignment) == AssignAll(sorted[..i])
    {
      assert sorted[..i + 1][..i] == sorted[..i];
      var hash := HashPair(sorted[i]);
      var want := hash % SLOTS;
      var attempts := 0;
      while want in used && attempts < SLOTS
        invariant 0 <= want < SLOTS && 0 <= attempts <= SLOTS
        invariant Probe(used, want, attempts) == Probe(used, Preferred(sorted[i]), 0)
        decreases SLOTS - attempts
      {
        want := (want + 1) % SLOTS;
        attempts := attempts + 1;
      }
      used := used + {want};
      assignment := assignment[sorted[i] := want];
      i := i + 1;
    }
    assert sorted[..|sorted|] == sorted;
    return if pair in assignment then assignment[pair] else -1;
  }

  /** Everything that is assigned lies in the palette and is in use. */
  lemma {:induction false} AssignmentShape(names: seq<Name>)
    ensures var s := AssignAll(names);
            && |s.used| <= |names|
            && (forall p :: p in s.assignment <==> p in names)
            && (forall p :: p in s.assignment ==> s.assignment[p] < SLOTS && s.assignment[p] in s.used)
  {
    if names == [] {
    } else {
      var front, last := names[..|names| - 1], names[|names| - 1];
      AssignmentShape(front);
      assert names == front + [last];
    }
  }

  ghost predicate Injective(assignment: map<Name, nat>) {
    forall p, q :: p in assignment && q in assignment && p != q ==> assignment[p] != assignment[q]
  }

  /** With no more pairs than slots no slot is given twice, repeats included. */
  lemma {:induction false} NoCollisions(names: seq<Name>)
    requires |names| <= SLOTS
    ensures Injective(AssignAll(names).assignment)
  {
    if names == [] {
    } else {
      var front, last := names[..|names| - 1], names[|names| - 1];
      NoCollisions(front);
      AssignmentShape(front);
      ProbeIsFirstFree(AssignAll(front).used, Preferred(last));
    }
  }

  /** The newest claim gets the first slot clockwise from its own that is free. */
  lemma ClaimsFirstFree(names: seq<Name>, pair: Name)
    requires |names| < SLOTS
    ensures AssignAll(names + [pair]).assignment
            == AssignAll(names).assignment[pair := Probe(AssignAll(names).used, Preferred(pair), 0)]
    ensures IsFirstFree(AssignAll(names).used, (Djb2(pair) % 0x1_0000_0000) % 6,
                        AssignAll(names + [pair]).assignment[pair])
  {
    assert (names + [pair])[..|names|] == names;
    AssignmentShape(names);
    ProbeIsFirstFree(AssignAll(names).used, Preferred(pair));
  }

  ghost predicate AreDistinct<T>(s: seq<T>) {
    forall i, j :: 0 <= i < j < |s| ==> s[i] != s[j]
  }

  lemma {:induction false} DistinctCardinality<T>(s: seq<T>)
    requires AreDistinct(s)
    ensures |(set x | x in s)| == |s|
  {
    if s == [] {
    } else {
      var front, last := s[..|s| - 1], s[|s| - 1];
      DistinctCardinality(front);
      assert (set x | x in s) == (set x | x in front) + {last};
      assert last !in front;
    }
  }

  /** More distinct pairs than slots must share one. */
  lemma TooManyCollide(pairs: seq<Name>, assignment: map<Name, nat>)
    requires AreDistinct(pairs) && Injective(assignment)
    requires forall p | p in pairs :: p in assignment && assignment[p] < SLOTS
    ensures |pairs| <= SLOTS
  {
    var taken := seq(|pairs|, i requires 0 <= i < |pairs| => assignment[pairs[i]]);
    assert AreDistinct(taken);
    DistinctCardinality(taken);
    var all: set<nat> := {0, 1, 2, 3, 4, 5};
    var used := set x | x in taken;
    Subset(used, all);
  }

  /** Distinct featured pairs get pairwise distinct slots exactly when there are
      no more of them than palette entries. */
  lemma CollisionFreeIff(featured: seq<Name>)
    requires AreDistinct(featured)
    ensures (forall p, q | p in featured && q in featured && p != q ::
               AssignedIndex(p, featured) != AssignedIndex(q, featured)) <==> |featured| <= SLOTS
    ensures forall p :: p in featured <==> AssignedIndex(p, featured).Some?
  {
    var sorted := SortNames(featured);
    SameElements(sorted, featured);
    AssignmentShape(sorted);
    var assignment := AssignAll(sorted).assignment;
    if |featured| <= SLOTS {
      NoCollisions(sorted);
    } else if forall p, q | p in featured && q in featured && p != q ::
                AssignedIndex(p, featured) != AssignedIndex(q, featured) {
      forall p, q | p in assignment && q in assignment && p != q ensures assignment[p] != assignment[q] {
        assert AssignedIndex(p, featured) != AssignedIndex(q, featured);
      }
      TooManyCollide(featured, assignment);
    }
  }

  lemma SameElements(a: seq<Name>, b: seq<Name>)
    requires multiset(a) == multiset(b)
    ensures |a| == |b| && forall p :: p in a <==> p in b
  {
    assert |a| == |multiset(a)| && |b| == |multiset(b)|;
    forall p ensures p in a <==> p in b {
      assert p in multiset(a) <==> p in multiset(b);
    }
  }

  /** How the caller arranges the featured pairs makes no difference. */
  lemma OrderDoesNotMatter(pair: Name, featured: seq<Name>, arranged: seq<Name>)
    requires multiset(featured) == multiset(arranged)
    ensures AssignedIndex(pair, featured) == AssignedIndex(pair, arranged)
    ensures ColorOf(pair, featured) == ColorOf(pair, arranged)
  {
    OrderedIsUnique(SortNames(featured), SortNames(arranged));
  }

  /** The colour shown: the assigned one, else the preferred one. */
  function ColorOf(pair: Name, featured: seq<Name>): string {
    match AssignedIndex(pair, featured)
    case Some(slot) => AssignmentShape(SortNames(featured)); PALETTE[slot]
    case None => PALETTE[Preferred(pair)]
  }

  lemma PaletteIsDistinct(i: nat, j: nat)
    requires i < SLOTS && j < SLOTS && i != j
    ensures PALETTE[i] != PALETTE[j]
  {
    var names := PALETTE;
    assert names[0][6] == 'o' && names[1][6] == 'i' && names[2][6] == 'u';
    assert names[3][6] == 'w' && names[4][6] == 'd' && names[5][6] == 'f';
  }

  /** Up to six featured pairs are told apart by their colour. */
  lemma FeaturedColorsDiffer(featured: seq<Name>, p: Name, q: Name)
    requires |featured| <= SLOTS && p in featured && q in featured && p != q
    ensures ColorOf(p, featured) != ColorOf(q, featured)
  {
    var sorted := SortNames(featured);
    SameElements(sorted, featured);
    AssignmentShape(sorted);
    NoCollisions(sorted);
    PaletteIsDistinct(AssignAll(sorted).assignment[p], AssignAll(sorted).assignment[q]);
  }

  /** `featured` is None when the caller leaves the list out. */
  method PairColor(pair: Name, featured: Option<seq<Name>>) returns (color: string)
    ensures color == ColorOf(pair, if featured.Some? then featured.value else [])
    ensures var slot := AssignedIndex(pair, if featured.Some? then featured.value else []);
            && (slot.Some? ==> slot.value < 6 && color == PALETTE[slot.value])
            && (slot.None? ==> color == PALETTE[(Djb2(pair) % 0x1_0000_0000) % 6])
  {
    var hash := HashPair(pair);
    if featured.None? || |featured.value| == 0 {
      return PALETTE[hash % SLOTS];
    }
    AssignmentShape(SortNames(featured.value));
    var idx := AssignedColorIndex(pair, featured.value);
    if idx < 0 {
      return PALETTE[hash % SLOTS];
    }
    return PALETTE[idx];
  }
}
