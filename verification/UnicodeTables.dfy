/** The compressed character tables and the lookups the generated C makes in
  * them (tools/gen-r7rs-unicode.py, lines 46-96 and 200-334). */
module UnicodeTables {
  const CODE_POINTS := 0x110000

  predicate IsChar(c: int) { !(0xD800 <= c <= 0xDFFF) }

  predicate IsScalar(c: int) { 0 <= c < CODE_POINTS && IsChar(c) }

  /** A strided run of code points, and one that maps them by a fixed delta. */
  datatype Range = Range(lo: int, hi: int, stride: int)

  datatype MapRun = MapRun(run: Range, delta: int)

  /** A row of a full-mapping table: the code point and up to three others, zero-padded. */
  datatype Special = Special(cp: int, out: seq<int>)

  // ----- what a table of runs means -----

  predicate InRun(r: Range, c: int) {
    r.stride > 0 && r.lo <= c <= r.hi && (c - r.lo) % r.stride == 0
  }

  predicate GoodRun(r: Range) {
    r.stride in {1, 2} && r.lo <= r.hi && (r.hi - r.lo) % r.stride == 0
  }

  /** Runs in ascending order, none reaching into the next. */
  predicate Ordered(t: seq<Range>) {
    (forall k | 0 <= k < |t| :: GoodRun(t[k])) && forall j, k | 0 <= j < k < |t| :: t[j].hi < t[k].lo
  }

  ghost predicate Covered(t: seq<Range>, c: int) {
    exists k | 0 <= k < |t| :: InRun(t[k], c)
  }

  function Runs(t: seq<MapRun>): (rs: seq<Range>)
    ensures |rs| == |t| && forall k | 0 <= k < |t| :: rs[k] == t[k].run
  {
    seq(|t|, k requires 0 <= k < |t| => t[k].run)
  }

  /** The table sends `c` by `d`. */
  ghost predicate Sends(t: seq<MapRun>, c: int, d: int) {
    exists k | 0 <= k < |t| :: InRun(t[k].run, c) && t[k].delta == d
  }

  predicate Ascending(s: seq<int>) {
    forall j, k | 0 <= j < k < |s| :: s[j] < s[k]
  }

  // ----- building runs -----

  /** The characters of the code space that satisfy `pred`, in order. */
  method Collect(pred: int -> bool) returns (cps: seq<int>)
    ensures Ascending(cps)
    ensures forall c :: c in cps <==> IsScalar(c) && pred(c)
  {
    cps := [];
    for c := 0 to CODE_POINTS
      invariant Ascending(cps)
      invariant forall k | 0 <= k < |cps| :: cps[k] < c
      invariant forall x :: x in cps <==> 0 <= x < c && IsChar(x) && pred(x)
    {
      if IsChar(c) && pred(c) {
        cps := cps + [c];
      }
    }
  }

  ghost predicate RunIs(r: Range, s: seq<int>) {
    GoodRun(r) && forall c :: InRun(r, c) <==> c in s
  }

  ghost predicate TableIs(t: seq<Range>, s: seq<int>) {
    Ordered(t) && forall c :: Covered(t, c) <==> c in s
  }

  /** A run grown by one step covers one more code point. */
  lemma GrowRun(lo: int, hi: int, stride: int, s: seq<int>)
    requires RunIs(Range(lo, hi, stride), s)
    ensures RunIs(Range(lo, hi + stride, stride), s + [hi + stride])
  {
    forall c
      ensures InRun(Range(lo, hi + stride, stride), c) <==> InRun(Range(lo, hi, stride), c) || c == hi + stride
    {
    }
  }

  /** The code points from `i` to `j` are one run. */
  ghost predicate OneRun(cps: seq<int>, i: nat, j: nat, step: int) {
    i <= j < |cps| && RunIs(Range(cps[i], cps[j], step), cps[i..j + 1])
  }

  lemma RunOfOne(cps: seq<int>, i: nat, step: int)
    requires i < |cps| && step in {1, 2}
    ensures OneRun(cps, i, i, step)
  {
    assert cps[i..i + 1] == [cps[i]];
  }

  lemma NextInRun(cps: seq<int>, i: nat, j: nat, step: int)
    requires OneRun(cps, i, j, step) && j + 1 < |cps| && cps[j + 1] - cps[j] == step
    ensures OneRun(cps, i, j + 1, step)
  {
    GrowRun(cps[i], cps[j], step, cps[i..j + 1]);
    assert cps[i..j + 2] == cps[i..j + 1] + [cps[j + 1]];
  }

  lemma AppendRun(t: seq<Range>, s: seq<int>, r: Range, s': seq<int>)
    requires TableIs(t, s) && RunIs(r, s')
    requires forall k | 0 <= k < |t| :: t[k].hi < r.lo
    ensures TableIs(t + [r], s + s')
  {
    var u := t + [r];
    forall c
      ensures Covered(u, c) <==> Covered(t, c) || InRun(r, c)
    {
      assert u[|t|] == r;
      if Covered(t, c) {
        var k :| 0 <= k < |t| && InRun(t[k], c);
        assert InRun(u[k], c);
      }
    }
  }

  /** The longest run from `cps[i]`: its last index and its stride. */
  method TakeRun(cps: seq<int>, i: nat) returns (j: nat, step: int)
    requires Ascending(cps) && i < |cps|
    ensures i <= j < |cps|
    ensures RunIs(Range(cps[i], cps[j], step), cps[i..j + 1])
  {
    j, step := i, 1;
    RunOfOne(cps, i, 1);
    if j + 1 < |cps| && cps[j + 1] - cps[j] in {1, 2} {
      step := cps[j + 1] - cps[j];
      RunOfOne(cps, i, step);
      while j + 1 < |cps| && cps[j + 1] - cps[j] == step
        invariant OneRun(cps, i, j, step)
      {
        NextInRun(cps, i, j, step);
        j := j + 1;
      }
    }
  }

  /** Stride-1 and stride-2 runs covering exactly the characters satisfying `pred`. */
  method Strided(pred: int -> bool) returns (t: seq<Range>)
    ensures Ordered(t)
    ensures forall c :: Covered(t, c) <==> IsScalar(c) && pred(c)
  {
    var cps := Collect(pred);
    t := [];
    var i := 0;
    while i < |cps|
      invariant 0 <= i <= |cps|
      invariant TableIs(t, cps[..i])
      invariant forall k | 0 <= k < |t| :: i > 0 && t[k].hi <= cps[i - 1]
    {
      var j, step := TakeRun(cps, i);
      var r := Range(cps[i], cps[j], step);
      AppendRun(t, cps[..i], r, cps[i..j + 1]);
      assert cps[..i] + cps[i..j + 1] == cps[..j + 1];
      assert cps[i] <= cps[j] && (i > 0 ==> cps[i - 1] < cps[i]);
      t, i := t + [r], j + 1;
    }
    assert cps[..i] == cps;
  }

  ghost predicate MapTableIs(t: seq<MapRun>, s: seq<int>, delta: int -> int) {
    Ordered(Runs(t)) && forall c, d :: Sends(t, c, d) <==> c in s && d == delta(c)
  }

  lemma AppendMapRun(t: seq<MapRun>, s: seq<int>, delta: int -> int, r: MapRun, s': seq<int>)
    requires MapTableIs(t, s, delta) && RunIs(r.run, s')
    requires forall c | c in s' :: delta(c) == r.delta
    requires forall k | 0 <= k < |t| :: t[k].run.hi < r.run.lo
    ensures MapTableIs(t + [r], s + s', delta)
  {
    var u := t + [r];
    assert Runs(u) == Runs(t) + [r.run];
    forall c, d
      ensures Sends(u, c, d) <==> Sends(t, c, d) || (InRun(r.run, c) && d == r.delta)
    {
      assert u[|t|] == r;
      if Sends(t, c, d) {
        var k :| 0 <= k < |t| && InRun(t[k].run, c) && t[k].delta == d;
        assert u[k] == t[k];
      }
    }
  }

  /** The longest run of one delta from `cps[i]`: its last index and its stride. */
  method TakeMapRun(cps: seq<int>, delta: int -> int, i: nat) returns (j: nat, step: int)
    requires Ascending(cps) && i < |cps|
    ensures i <= j < |cps|
    ensures RunIs(Range(cps[i], cps[j], step), cps[i..j + 1])
    ensures forall c | c in cps[i..j + 1] :: delta(c) == delta(cps[i])
  {
    var d := delta(cps[i]);
    j, step := i, 1;
    RunOfOne(cps, i, 1);
    if j + 1 < |cps| && delta(cps[j + 1]) == d && cps[j + 1] - cps[i] in {1, 2} {
      step := cps[j + 1] - cps[i];
      RunOfOne(cps, i, step);
      while j + 1 < |cps| && delta(cps[j + 1]) == d && cps[j + 1] - cps[j] == step
        invariant OneRun(cps, i, j, step)
        invariant forall k | i <= k <= j :: delta(cps[k]) == d
      {
        NextInRun(cps, i, j, step);
        j := j + 1;
      }
    }
  }

  /** Runs of the sorted code points `cps` with their deltas; one whose delta is 0
    * is kept. */
  method DeltaRuns(cps: seq<int>, delta: int -> int) returns (t: seq<MapRun>)
    requires Ascending(cps)
    ensures Ordered(Runs(t))
    ensures forall c, d :: Sends(t, c, d) <==> c in cps && d == delta(c)
  {
    t := [];
    var i := 0;
    while i < |cps|
      invariant 0 <= i <= |cps|
      invariant MapTableIs(t, cps[..i], delta)
      invariant forall k | 0 <= k < |t| :: i > 0 && t[k].run.hi <= cps[i - 1]
    {
      var j, step := TakeMapRun(cps, delta, i);
      var run := MapRun(Range(cps[i], cps[j], step), delta(cps[i]));
      AppendMapRun(t, cps[..i], delta, run, cps[i..j + 1]);
      assert cps[..j + 1] == cps[..i] + cps[i..j + 1];
      t := t + [run];
      i := j + 1;
    }
    assert cps[..i] == cps;
  }

  /** Runs of the map `single`: the characters it moves, and by how much. */
  method MapRuns(single: int -> int) returns (t: seq<MapRun>)
    ensures Ordered(Runs(t))
    ensures forall c, d :: Sends(t, c, d) <==> IsScalar(c) && single(c) != c && d == single(c) - c
  {
    var moved := Collect(c => single(c) != c);
    t := DeltaRuns(moved, c => single(c) - c);
  }

  // ----- looking up -----

  /** The index of the last key not above `cp`, or -1. */
  method Find(keys: seq<int>, cp: int) returns (best: int)
    requires Ascending(keys)
    ensures -1 <= best < |keys|
    ensures forall k | 0 <= k < |keys| :: keys[k] <= cp <==> k <= best
  {
    var lo, hi := 0, |keys| - 1;
    best := -1;
    while lo <= hi
      invariant 0 <= lo <= hi + 1 <= |keys|
      invariant best == lo - 1
      invariant forall k | 0 <= k < lo :: keys[k] <= cp
      invariant forall k | hi < k < |keys| :: cp < keys[k]
    {
      var mid := (lo + hi) / 2;
      if keys[mid] <= cp {
        best, lo := mid, mid + 1;
      } else {
        hi := mid - 1;
      }
    }
  }

  function Los(t: seq<Range>): (ks: seq<int>)
    ensures |ks| == |t| && forall k | 0 <= k < |t| :: ks[k] == t[k].lo
  {
    seq(|t|, k requires 0 <= k < |t| => t[k].lo)
  }

  /** Only the run `Find` names can cover `cp`. */
  lemma OnlyBest(t: seq<Range>, cp: int, best: int, k: nat)
    requires Ordered(t) && -1 <= best < |t| && k < |t|
    requires forall j | 0 <= j < |t| :: t[j].lo <= cp <==> j <= best
    requires InRun(t[k], cp)
    ensures k == best
  {
    assert k <= best;
    var bestLo := t[best].lo;
    assert t[k].lo <= cp <= t[k].hi && bestLo <= cp;
    assert !(k < best);
  }

  method FindRun(t: seq<Range>, cp: int) returns (k: int)
    requires Ordered(t)
    ensures -1 <= k < |t|
    ensures forall j | 0 <= j < |t| && InRun(t[j], cp) :: j == k
  {
    k := Find(Los(t), cp);
    forall j | 0 <= j < |t| && InRun(t[j], cp)
      ensures j == k
    {
      assert forall i | 0 <= i < |t| :: Los(t)[i] == t[i].lo;
      OnlyBest(t, cp, k, j);
    }
  }

  /** Membership by binary search is membership in some run. */
  method In(t: seq<Range>, cp: int) returns (b: bool)
    requires Ordered(t)
    ensures b <==> Covered(t, cp)
  {
    var k := FindRun(t, cp);
    b := k >= 0 && InRun(t[k], cp);
  }

  /** The simple mapping by binary search is the delta of the run that has `cp`, if any. */
  method Map1(t: seq<MapRun>, cp: int) returns (r: int)
    requires Ordered(Runs(t))
    ensures forall d :: Sends(t, cp, d) ==> r == cp + d
    ensures (forall d :: !Sends(t, cp, d)) ==> r == cp
  {
    var k := FindRun(Runs(t), cp);
    if k >= 0 && InRun(Runs(t)[k], cp) {
      r := cp + t[k].delta;
      assert Sends(t, cp, t[k].delta);
    } else {
      r := cp;
    }
    forall d | Sends(t, cp, d)
      ensures r == cp + d
    {
      var j :| 0 <= j < |t| && InRun(t[j].run, cp) && t[j].delta == d;
      assert InRun(Runs(t)[j], cp);
    }
  }

  // ----- the character data, and the tables written from it -----

  /** What the generator reads from the Unicode Character Database. */
  datatype UCD = UCD(
    alphabetic: int -> bool, uppercase: int -> bool, lowercase: int -> bool,
    cased: int -> bool, caseIgnorable: int -> bool,
    category: int -> string, decimal: map<int, int>,
    upper: map<int, int>, lower: map<int, int>, title: map<int, int>, foldSimple: map<int, int>,
    spUpper: map<int, seq<int>>, spLower: map<int, seq<int>>, foldFull: map<int, seq<int>>)

  datatype Tables = Tables(
    alpha: seq<Range>, upper: seq<Range>, lower: seq<Range>, cased: seq<Range>, ci: seq<Range>,
    space: seq<Range>, nd0: seq<int>,
    title: seq<Range>, punct: seq<Range>, symbol: seq<Range>, graphic: seq<Range>, blank: seq<Range>,
    toUpper: seq<MapRun>, toLower: seq<MapRun>, toFold: seq<MapRun>, toTitle: seq<MapRun>,
    spUpper: seq<Special>, spLower: seq<Special>, spFold: seq<Special>)

  const WHITE_SPACE := [
    Range(0x09, 0x0D, 1), Range(0x20, 0x20, 1), Range(0x85, 0x85, 1), Range(0xA0, 0xA0, 1),
    Range(0x1680, 0x1680, 1), Range(0x2000, 0x200A, 1), Range(0x2028, 0x2029, 1),
    Range(0x202F, 0x202F, 1), Range(0x205F, 0x205F, 1), Range(0x3000, 0x3000, 1)]

  /** Python's `d.get(c, c)`. */
  function Get(m: map<int, int>, c: int): int { if c in m then m[c] else c }

  /** Each decimal digit stands in a run of ten, all of them characters. */
  ghost predicate RunsOfTen(decimal: map<int, int>) {
    && (forall c | c in decimal :: 0 <= decimal[c] <= 9)
    && (forall c | c in decimal :: TenDigitsFrom(decimal, c - decimal[c]))
    && (forall c | c in decimal :: IsScalar(c))
  }

  ghost predicate TenDigitsFrom(decimal: map<int, int>, zero: int) {
    forall c | zero <= c <= zero + 9 :: c in decimal && decimal[c] == c - zero
  }

  /** A full mapping has at most three code points, none of them NUL. */
  ghost predicate FullMap3(m: map<int, seq<int>>) {
    forall c | c in m :: |m[c]| <= 3 && forall k | 0 <= k < |m[c]| :: 0 < m[c][k] < CODE_POINTS
  }

  ghost predicate IntoCodePoints(m: map<int, int>) {
    forall c | c in m :: 0 <= m[c] < CODE_POINTS
  }

  ghost predicate ValidUCD(u: UCD) {
    && RunsOfTen(u.decimal)
    && FullMap3(u.spUpper) && FullMap3(u.spLower) && FullMap3(u.foldFull)
    && IntoCodePoints(u.upper) && IntoCodePoints(u.lower) && IntoCodePoints(u.title) && IntoCodePoints(u.foldSimple)
  }

  ghost predicate RangeTable(t: seq<Range>, pred: int -> bool) {
    Ordered(t) && forall c :: Covered(t, c) <==> IsScalar(c) && pred(c)
  }

  ghost predicate MapTable(t: seq<MapRun>, m: map<int, int>) {
    Ordered(Runs(t)) &&
    forall c, d :: Sends(t, c, d) <==> IsScalar(c) && Get(m, c) != c && d == Get(m, c) - c
  }

  /** The titlecase table keeps only what differs from uppercase, identities included. */
  ghost predicate TitleTable(t: seq<MapRun>, u: UCD) {
    Ordered(Runs(t)) &&
    forall c, d :: Sends(t, c, d) <==>
      IsScalar(c) && c in u.title && u.title[c] != Get(u.upper, c) && d == u.title[c] - c
  }

  function Pad(s: seq<int>): seq<int> { (s + [0, 0, 0])[..3] }

  function Keys(t: seq<Special>): (ks: seq<int>)
    ensures |ks| == |t| && forall k | 0 <= k < |t| :: ks[k] == t[k].cp
  {
    seq(|t|, k requires 0 <= k < |t| => t[k].cp)
  }

  predicate InFull(full: map<int, seq<int>>, simple: map<int, int>, c: int) {
    c in full && full[c] != [Get(simple, c)]
  }

  ghost predicate SpecialTable(t: seq<Special>, full: map<int, seq<int>>, simple: map<int, int>) {
    && Ascending(Keys(t))
    && (forall k | 0 <= k < |t| ::
          IsScalar(t[k].cp) && InFull(full, simple, t[k].cp) && t[k].out == Pad(full[t[k].cp]))
    && (forall c | IsScalar(c) && InFull(full, simple, c) :: c in Keys(t))
  }

  predicate IsZero(decimal: map<int, int>, c: int) { c in decimal && decimal[c] == 0 }

  ghost predicate DigitTable(nd0: seq<int>, decimal: map<int, int>) {
    Ascending(nd0) && forall c :: c in nd0 <==> IsScalar(c) && IsZero(decimal, c)
  }

  ghost predicate Represents(t: Tables, u: UCD) {
    && RangeTable(t.alpha, u.alphabetic) && RangeTable(t.upper, u.uppercase) && RangeTable(t.lower, u.lowercase)
    && RangeTable(t.cased, u.cased) && RangeTable(t.ci, u.caseIgnorable)
    && t.space == WHITE_SPACE
    && DigitTable(t.nd0, u.decimal)
    && MapTable(t.toUpper, u.upper) && MapTable(t.toLower, u.lower) && MapTable(t.toFold, u.foldSimple)
    && TitleTable(t.toTitle, u)
    && SpecialTable(t.spUpper, u.spUpper, u.upper)
    && SpecialTable(t.spLower, u.spLower, u.lower)
    && SpecialTable(t.spFold, u.foldFull, u.foldSimple)
  }

  /** The major class of a character is one of `majors`. */
  predicate InMajor(u: UCD, c: int, majors: string) {
    u.category(c) != "" && u.category(c)[0] in majors
  }

  predicate IsTitle(u: UCD, c: int) { u.category(c) == "Lt" }

  predicate IsBlank(u: UCD, c: int) { c == 0x09 || u.category(c) == "Zs" }

  /** The tables only the character sets use. */
  ghost predicate RepresentsSets(t: Tables, u: UCD) {
    && RangeTable(t.title, c => IsTitle(u, c)) && RangeTable(t.blank, c => IsBlank(u, c))
    && RangeTable(t.punct, c => InMajor(u, c, "P")) && RangeTable(t.symbol, c => InMajor(u, c, "S"))
    && RangeTable(t.graphic, c => InMajor(u, c, "LNMSP"))
  }

  function TitleDelta(u: UCD, c: int): int { Get(u.title, c) - c }

  method TitleRuns(u: UCD) returns (t: seq<MapRun>)
    ensures TitleTable(t, u)
  {
    var cps := Collect(c => c in u.title && u.title[c] != Get(u.upper, c));
    t := DeltaRuns(cps, c => TitleDelta(u, c));
  }

  method Full(full: map<int, seq<int>>, simple: map<int, int>) returns (t: seq<Special>)
    ensures SpecialTable(t, full, simple)
  {
    var cps := Collect(c => InFull(full, simple, c));
    t := [];
    for i := 0 to |cps|
      invariant |t| == i
      invariant forall k | 0 <= k < i ::
          cps[k] in full && t[k] == Special(cps[k], Pad(full[cps[k]]))
    {
      assert cps[i] in cps;
      t := t + [Special(cps[i], Pad(full[cps[i]]))];
    }
    assert Keys(t) == cps;
    assert forall k | 0 <= k < |t| :: t[k].cp == cps[k] && cps[k] in cps;
  }

  method SetTables(u: UCD)
    returns (title: seq<Range>, punct: seq<Range>, symbol: seq<Range>, graphic: seq<Range>, blank: seq<Range>)
    ensures RangeTable(title, c => IsTitle(u, c)) && RangeTable(blank, c => IsBlank(u, c))
    ensures RangeTable(punct, c => InMajor(u, c, "P")) && RangeTable(symbol, c => InMajor(u, c, "S"))
    ensures RangeTable(graphic, c => InMajor(u, c, "LNMSP"))
  {
    title := Strided(c => IsTitle(u, c));
    punct := Strided(c => InMajor(u, c, "P"));
    symbol := Strided(c => InMajor(u, c, "S"));
    graphic := Strided(c => InMajor(u, c, "LNMSP"));
    blank := Strided(c => IsBlank(u, c));
  }

  /** Every table of the generated block says exactly what the data says. */
  method CBlock(u: UCD) returns (t: Tables)
    ensures Represents(t, u) && RepresentsSets(t, u)
  {
    var alpha := Strided(u.alphabetic);
    var upper := Strided(u.uppercase);
    var lower := Strided(u.lowercase);
    var cased := Strided(u.cased);
    var ci := Strided(u.caseIgnorable);
    var nd0 := Collect(c => IsZero(u.decimal, c));
    var title, punct, symbol, graphic, blank := SetTables(u);
    var toUpper := MapRuns(c => Get(u.upper, c));
    var toLower := MapRuns(c => Get(u.lower, c));
    var toFold := MapRuns(c => Get(u.foldSimple, c));
    var toTitle := TitleRuns(u);
    var spUpper := Full(u.spUpper, u.upper);
    var spLower := Full(u.spLower, u.lower);
    var spFold := Full(u.foldFull, u.foldSimple);
    t := Tables(alpha, upper, lower, cased, ci, WHITE_SPACE, nd0, title, punct, symbol, graphic, blank,
                toUpper, toLower, toFold, toTitle, spUpper, spLower, spFold);
  }

  // ----- the lookups on the generated tables -----

  /** The simple mapping of the data: op 0 upper, 1 lower, 3 title (uppercase unless
    * the data has a titlecase entry), any other op fold. */
  ghost function SimpleMap(u: UCD, op: int, cp: int): int {
    if !IsScalar(cp) then cp
    else if op == 0 then Get(u.upper, cp)
    else if op == 1 then Get(u.lower, cp)
    else if op == 3 then (if cp in u.title then u.title[cp] else Get(u.upper, cp))
    else Get(u.foldSimple, cp)
  }

  method MapBy(t: seq<MapRun>, ghost m: map<int, int>, cp: int) returns (r: int)
    requires MapTable(t, m)
    ensures r == if IsScalar(cp) then Get(m, cp) else cp
  {
    r := Map1(t, cp);
    if IsScalar(cp) && Get(m, cp) != cp {
      assert Sends(t, cp, Get(m, cp) - cp);
    }
  }

  /** `mapc` is the simple mapping of the data, for every code point and every op. */
  method Mapc(t: Tables, ghost u: UCD, cp: int, op: int) returns (r: int)
    requires Represents(t, u)
    ensures r == SimpleMap(u, op, cp)
    ensures !IsScalar(cp) ==> r == cp
    ensures IsScalar(cp) && op == 0 ==> r == if cp in u.upper then u.upper[cp] else cp
    ensures IsScalar(cp) && op == 1 ==> r == if cp in u.lower then u.lower[cp] else cp
    ensures IsScalar(cp) && op == 2 ==> r == if cp in u.foldSimple then u.foldSimple[cp] else cp
  {
    if cp < 0 || cp >= CODE_POINTS { return cp; }
    var o := op;
    if op == 3 {
      var k := FindRun(Runs(t.toTitle), cp);
      if k >= 0 && InRun(Runs(t.toTitle)[k], cp) {
        r := cp + t.toTitle[k].delta;
        assert Sends(t.toTitle, cp, t.toTitle[k].delta);
        return;
      }
      assert forall j | 0 <= j < |t.toTitle| :: !InRun(Runs(t.toTitle)[j], cp);
      assert !Sends(t.toTitle, cp, TitleDelta(u, cp));
      o := 0;
    }
    if o == 0 {
      r := MapBy(t.toUpper, u.upper, cp);
    } else if o == 1 {
      r := MapBy(t.toLower, u.lower, cp);
    } else {
      r := MapBy(t.toFold, u.foldSimple, cp);
    }
  }

  /** White_Space, code point by code point. */
  predicate IsWhiteSpace(c: int) {
    9 <= c <= 13 || c in {0x20, 0x85, 0xA0, 0x1680, 0x2028, 0x2029, 0x202F, 0x205F, 0x3000} || 0x2000 <= c <= 0x200A
  }

  lemma WhiteSpaceTable()
    ensures RangeTable(WHITE_SPACE, IsWhiteSpace)
  {
    forall c
      ensures Covered(WHITE_SPACE, c) <==> IsScalar(c) && IsWhiteSpace(c)
    {
      assert forall k | 0 <= k < |WHITE_SPACE| ::
          InRun(WHITE_SPACE[k], c) <==> WHITE_SPACE[k].lo <= c <= WHITE_SPACE[k].hi;
      assert IsScalar(c) && IsWhiteSpace(c) <==>
        InRun(WHITE_SPACE[0], c) || InRun(WHITE_SPACE[1], c) || InRun(WHITE_SPACE[2], c) || InRun(WHITE_SPACE[3], c)
        || InRun(WHITE_SPACE[4], c) || InRun(WHITE_SPACE[5], c) || InRun(WHITE_SPACE[6], c) || InRun(WHITE_SPACE[7], c)
        || InRun(WHITE_SPACE[8], c) || InRun(WHITE_SPACE[9], c);
    }
  }

  /** What the data says for each op of the property lookup: any op past the first four is
    * the digit value, though only 4 answers -1 outside the code space. */
  ghost function Prop(u: UCD, op: int, cp: int): int {
    if op == 0 then (if IsScalar(cp) && u.alphabetic(cp) then 1 else 0)
    else if op == 1 then (if IsScalar(cp) && u.uppercase(cp) then 1 else 0)
    else if op == 2 then (if IsScalar(cp) && u.lowercase(cp) then 1 else 0)
    else if op == 3 then (if IsWhiteSpace(cp) then 1 else 0)
    else if op != 4 && !(0 <= cp < CODE_POINTS) then 0
    else if cp in u.decimal then u.decimal[cp] else -1
  }

  /** The property lookup answers the data; the digit value needs no table of digits
    * but the zeros, because digits come in runs of ten. */
  method PropOf(t: Tables, ghost u: UCD, cp: int, op: int) returns (r: int)
    requires Represents(t, u) && ValidUCD(u)
    ensures r == Prop(u, op, cp)
  {
    WhiteSpaceTable();
    if cp < 0 || cp >= CODE_POINTS { return if op == 4 then -1 else 0; }
    var b := false;
    match op {
      case 0 => b := In(t.alpha, cp);
      case 1 => b := In(t.upper, cp);
      case 2 => b := In(t.lower, cp);
      case 3 => b := In(t.space, cp);
      case _ =>
        var k := Find(t.nd0, cp);
        DigitByZeros(t.nd0, u.decimal, cp, k);
        return if k >= 0 && cp - t.nd0[k] < 10 then cp - t.nd0[k] else -1;
    }
    r := if b then 1 else 0;
  }

  lemma DigitByZeros(nd0: seq<int>, decimal: map<int, int>, cp: int, k: int)
    requires RunsOfTen(decimal) && DigitTable(nd0, decimal) && -1 <= k < |nd0|
    requires forall j | 0 <= j < |nd0| :: nd0[j] <= cp <==> j <= k
    ensures (if k >= 0 && cp - nd0[k] < 10 then cp - nd0[k] else -1) == if cp in decimal then decimal[cp] else -1
  {
    if k >= 0 {
      assert nd0[k] in nd0;
    }
    if cp in decimal {
      var z := cp - decimal[cp];
      assert TenDigitsFrom(decimal, z);
      assert IsZero(decimal, z);
      assert z in nd0;
      var j :| 0 <= j < |nd0| && nd0[j] == z;
      assert j <= k && nd0[j] <= nd0[k] <= cp <= nd0[j] + 9;
    }
  }

  // ----- the character sets -----

  /** The runs of ten that start at the zeros. */
  function DigitRuns(nd0: seq<int>): (rs: seq<Range>)
    ensures |rs| == |nd0| && forall k | 0 <= k < |nd0| :: rs[k] == Range(nd0[k], nd0[k] + 9, 1)
  {
    seq(|nd0|, k requires 0 <= k < |nd0| => Range(nd0[k], nd0[k] + 9, 1))
  }

  /** The runs of a set, by its number; there are ten sets. */
  function SetRuns(t: Tables, charset: int): seq<Range> {
    match charset
    case 0 => t.alpha
    case 1 => t.upper
    case 2 => t.lower
    case 3 => t.space
    case 4 => DigitRuns(t.nd0)
    case 5 => t.title
    case 6 => t.punct
    case 7 => t.symbol
    case 8 => t.graphic
    case 9 => t.blank
    case _ => []
  }

  ghost predicate InSet(u: UCD, charset: int, c: int) {
    IsScalar(c) &&
    match charset
    case 0 => u.alphabetic(c)
    case 1 => u.uppercase(c)
    case 2 => u.lowercase(c)
    case 3 => IsWhiteSpace(c)
    case 4 => c in u.decimal
    case 5 => IsTitle(u, c)
    case 6 => InMajor(u, c, "P")
    case 7 => InMajor(u, c, "S")
    case 8 => InMajor(u, c, "LNMSP")
    case 9 => IsBlank(u, c)
    case _ => false
  }

  /** A zero has the ten digits from it on, and no others so near. */
  lemma TenFrom(nd0: seq<int>, decimal: map<int, int>, k: nat)
    requires RunsOfTen(decimal) && DigitTable(nd0, decimal) && k < |nd0|
    ensures TenDigitsFrom(decimal, nd0[k]) && IsZero(decimal, nd0[k])
  {
    assert nd0[k] in nd0;
    assert TenDigitsFrom(decimal, nd0[k] - decimal[nd0[k]]);
  }

  lemma DigitRunsAre(nd0: seq<int>, decimal: map<int, int>)
    requires RunsOfTen(decimal) && DigitTable(nd0, decimal)
    ensures RangeTable(DigitRuns(nd0), c => c in decimal)
  {
    var t := DigitRuns(nd0);
    forall j, k | 0 <= j < k < |t|
      ensures t[j].hi < t[k].lo
    {
      TenFrom(nd0, decimal, j);
      TenFrom(nd0, decimal, k);
    }
    forall c
      ensures Covered(t, c) <==> IsScalar(c) && c in decimal
    {
      if Covered(t, c) {
        var k :| 0 <= k < |t| && InRun(t[k], c);
        TenFrom(nd0, decimal, k);
      }
      if c in decimal {
        var z := c - decimal[c];
        assert TenDigitsFrom(decimal, z) && IsZero(decimal, z);
        var k :| 0 <= k < |nd0| && nd0[k] == z;
        assert InRun(t[k], c);
      }
    }
  }

  /** The rows handed out for a set are ordered runs of exactly its characters. */
  lemma SetRunsAre(t: Tables, u: UCD, charset: int)
    requires Represents(t, u) && RepresentsSets(t, u) && ValidUCD(u)
    ensures Ordered(SetRuns(t, charset)) && forall c :: Covered(SetRuns(t, charset), c) <==> InSet(u, charset, c)
  {
    match charset
    case 3 => WhiteSpaceTable();
    case 4 => DigitRunsAre(t.nd0, u.decimal);
    case _ =>
  }

  /** One field of one row of a set, and -1 past the last row. */
  method RunOf(t: Tables, charset: int, i: int, field: int) returns (r: int)
    ensures var rows := SetRuns(t, charset);
            r == if 0 <= i < |rows| then
                   (if field == 0 then rows[i].lo else if field == 1 then rows[i].hi else rows[i].stride)
                 else -1
  {
    if charset == 4 {
      if i < 0 || i >= |t.nd0| { return -1; }
      return if field == 0 then t.nd0[i] else if field == 1 then t.nd0[i] + 9 else 1;
    }
    var rows := SetRuns(t, charset);
    if i < 0 || i >= |rows| { return -1; }
    return if field == 0 then rows[i].lo else if field == 1 then rows[i].hi else rows[i].stride;
  }
}
