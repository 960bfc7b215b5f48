/**
 * Release-branch selection: recognising release-shaped branch names,
 * parsing them into version tuples, ordering them newest first, and
 * filtering an explicit target list against the branches that exist.
 */
module BranchDetector {
  import opened PyStr
  import opened Models
  import opened SeqLemmas

  /** The four release-branch shapes, one per entry of RELEASE_BRANCH_PATTERNS. */
  datatype Shape =
    | MajorMinor       // 2.4
    | MajorMinorPatch  // 2.2.5
    | MajorX           // 2.x
    | MajorMinorX      // 2.4.x

  const ReleaseBranchPatterns: seq<Shape> := [MajorMinor, MajorMinorPatch, MajorX, MajorMinorX]

  /** s is exactly of the given shape (components of ASCII digits, or a literal x). */
  predicate HasShape(s: string, shape: Shape) {
    var p := Split(s, '.');
    match shape
    case MajorMinor => |p| == 2 && IsDigits(p[0]) && IsDigits(p[1])
    case MajorMinorPatch => |p| == 3 && IsDigits(p[0]) && IsDigits(p[1]) && IsDigits(p[2])
    case MajorX => |p| == 2 && IsDigits(p[0]) && p[1] == "x"
    case MajorMinorX => |p| == 3 && IsDigits(p[0]) && IsDigits(p[1]) && p[2] == "x"
  }

  /**
   * `re.match` of a pattern written `^...$`: Python's `$` matches at the end
   * of the text and also just before one final newline.
   */
  predicate Matches(shape: Shape, s: string) {
    HasShape(s, shape) || (|s| > 0 && s[|s| - 1] == '\n' && HasShape(s[..|s| - 1], shape))
  }

  /** The branch passes the shape test of the chosen mode. */
  predicate IsReleaseBranch(branch: string, majorOnly: bool) {
    if majorOnly then Matches(MajorMinor, branch)
    else exists shape :: shape in ReleaseBranchPatterns && Matches(shape, branch)
  }

  /** The branch survives the loop of detect_release_branches. */
  predicate Selected(branch: string, exclude: Option<string>, majorOnly: bool) {
    Some(branch) != exclude && IsReleaseBranch(branch, majorOnly)
  }

  /** The entries the selection loop appends, in input order. */
  function ReleaseCandidates(all: seq<string>, exclude: Option<string>, majorOnly: bool): (r: seq<string>)
    ensures forall b :: b in r ==> Selected(b, exclude, majorOnly)
  {
    if all == [] then []
    else
      var last := all[|all| - 1];
      ReleaseCandidates(all[..|all| - 1], exclude, majorOnly)
        + (if Selected(last, exclude, majorOnly) then [last] else [])
  }

  /**
   * Before sorting, the selection holds exactly the selected entries of the
   * input, each as often as it occurs there (duplicates are kept).
   */
  lemma {:induction false} ReleaseCandidatesCount(all: seq<string>, exclude: Option<string>, majorOnly: bool, b: string)
    ensures multiset(ReleaseCandidates(all, exclude, majorOnly))[b] ==
      if Selected(b, exclude, majorOnly) then multiset(all)[b] else 0
  {
    if all != [] {
      var last := all[|all| - 1];
      var init := all[..|all| - 1];
      ReleaseCandidatesCount(init, exclude, majorOnly, b);
      InitLast(all);
      MultisetSnoc(init, last);
      MultisetSnoc(ReleaseCandidates(init, exclude, majorOnly), last);
    }
  }

  /** The numeric parts of a split name, in order (`int(p) for p in parts if p.isdigit()`). */
  function NumericParts(parts: seq<string>): seq<nat> {
    if parts == [] then []
    else (if IsDigits(parts[0]) then [DecimalValue(parts[0])] else []) + NumericParts(parts[1..])
  }

  /** `_parse_version`: strip every trailing '.' or 'x', split on '.', keep the numeric parts. */
  function ParseVersion(branch: string): seq<nat> {
    NumericParts(Split(RStrip(branch, {'.', 'x'}), '.'))
  }

  /** Component i of a version, reading a missing component as 0. */
  function Padded(v: seq<nat>, i: nat): nat {
    if i < |v| then v[i] else 0
  }

  /** Zero-padded, component-wise comparison of version tuples: the difference at the first unequal component. */
  function Compare(a: seq<nat>, b: seq<nat>): int
    decreases |a| + |b|
  {
    if a == [] && b == [] then 0
    else
      var x, y := Padded(a, 0), Padded(b, 0);
      if x != y then x - y
      else Compare(if a == [] then [] else a[1..], if b == [] then [] else b[1..])
  }

  /** `_version_compare` on branch names. */
  function VersionOrder(a: string, b: string): int {
    Compare(ParseVersion(a), ParseVersion(b))
  }

  // ---------------------------------------------------------------------------
  // Properties of the version order

  lemma PaddedTail(v: seq<nat>, i: nat)
    ensures Padded(if v == [] then [] else v[1..], i) == Padded(v, i + 1)
  {
  }

  /** Swapping the arguments negates the result, so the signs are opposite or both zero. */
  lemma {:induction false} CompareAntisymmetric(a: seq<nat>, b: seq<nat>)
    ensures Compare(a, b) == -Compare(b, a)
    decreases |a| + |b|
  {
    if !(a == [] && b == []) && Padded(a, 0) == Padded(b, 0) {
      CompareAntisymmetric(if a == [] then [] else a[1..], if b == [] then [] else b[1..]);
    }
  }

  /** Compare is zero exactly when the zero-padded tuples agree everywhere. */
  lemma {:induction false} CompareZeroIff(a: seq<nat>, b: seq<nat>)
    ensures Compare(a, b) == 0 <==> forall i: nat :: Padded(a, i) == Padded(b, i)
    decreases |a| + |b|
  {
    if a == [] && b == [] {
    } else if Padded(a, 0) != Padded(b, 0) {
    } else {
      var ta, tb := if a == [] then [] else a[1..], if b == [] then [] else b[1..];
      CompareZeroIff(ta, tb);
      if Compare(a, b) == 0 {
        forall i: nat ensures Padded(a, i) == Padded(b, i) {
          if i > 0 {
            PaddedTail(a, i - 1);
            PaddedTail(b, i - 1);
          }
        }
      }
      if forall i: nat :: Padded(a, i) == Padded(b, i) {
        forall i: nat ensures Padded(ta, i) == Padded(tb, i) {
          PaddedTail(a, i);
          PaddedTail(b, i);
        }
      }
    }
  }

  /** The first unequal component decides: the result is its difference. */
  lemma {:induction false} CompareAtFirstDifference(a: seq<nat>, b: seq<nat>, k: nat)
    requires forall i: nat :: i < k ==> Padded(a, i) == Padded(b, i)
    requires Padded(a, k) != Padded(b, k)
    ensures Compare(a, b) == Padded(a, k) - Padded(b, k)
    decreases k
  {
    if k > 0 {
      assert Padded(a, 0) == Padded(b, 0);
      var ta, tb := if a == [] then [] else a[1..], if b == [] then [] else b[1..];
      forall i: nat | i < k - 1 ensures Padded(ta, i) == Padded(tb, i) {
        PaddedTail(a, i);
        PaddedTail(b, i);
      }
      PaddedTail(a, k - 1);
      PaddedTail(b, k - 1);
      CompareAtFirstDifference(ta, tb, k - 1);
    }
  }

  /** "At least as new as" is transitive. */
  lemma {:induction false} CompareTransitive(a: seq<nat>, b: seq<nat>, c: seq<nat>)
    requires Compare(a, b) >= 0 && Compare(b, c) >= 0
    ensures Compare(a, c) >= 0
    decreases |a| + |b| + |c|
  {
    if a == [] && b == [] && c == [] {
    } else if Padded(a, 0) == Padded(b, 0) == Padded(c, 0) {
      var ta, tb, tc := if a == [] then [] else a[1..], if b == [] then [] else b[1..], if c == [] then [] else c[1..];
      if a == [] && b == [] {
        assert Compare(b, c) == Compare(tb, tc);
      } else if b == [] && c == [] {
        assert Compare(a, b) == Compare(ta, tb);
      } else {
        assert Compare(a, b) == Compare(ta, tb);
        assert Compare(b, c) == Compare(tb, tc);
      }
      CompareTransitive(ta, tb, tc);
    }
  }

  lemma VersionOrderAntisymmetric(a: string, b: string)
    ensures VersionOrder(a, b) == -VersionOrder(b, a)
  {
    CompareAntisymmetric(ParseVersion(a), ParseVersion(b));
  }

  lemma VersionOrderTransitive(a: string, b: string, c: string)
    requires VersionOrder(a, b) >= 0 && VersionOrder(b, c) >= 0
    ensures VersionOrder(a, c) >= 0
  {
    CompareTransitive(ParseVersion(a), ParseVersion(b), ParseVersion(c));
  }

  // ---------------------------------------------------------------------------
  // Parsing the release shapes

  /** Stripping never reaches past a suffix made only of stripped characters. */
  lemma {:induction false} RStripSuffix(t: string, u: string, chars: set<char>)
    requires forall i :: 0 <= i < |u| ==> u[i] in chars
    ensures RStrip(t + u, chars) == RStrip(t, chars)
    decreases |u|
  {
    if u != [] {
      assert (t + u)[..|t + u| - 1] == t + u[..|u| - 1];
      RStripSuffix(t, u[..|u| - 1], chars);
    } else {
      assert t + u == t;
    }
  }

  /** A digits-only component holds no separator, and stripping leaves it alone. */
  lemma DigitsFacts(d: string)
    requires IsDigits(d)
    ensures '.' !in d
    ensures RStrip(d, {'.', 'x'}) == d
  {
    assert forall i :: 0 <= i < |d| ==> d[i] != '.';
    assert d[|d| - 1] !in {'.', 'x'};
  }

  /** Text ending in a digit is not stripped. */
  lemma EndsInDigit(s: string, d: string)
    requires IsDigits(d) && |s| >= |d| && s[|s| - |d|..] == d
    ensures RStrip(s, {'.', 'x'}) == s
  {
    assert s[|s| - 1] == d[|d| - 1];
    assert s[|s| - 1] !in {'.', 'x'};
  }

  /** When every part is numeric, the numeric parts are the parts' values, one for one. */
  lemma {:induction false} NumericPartsOfDigits(ds: seq<string>)
    requires forall k :: 0 <= k < |ds| ==> IsDigits(ds[k])
    ensures |NumericParts(ds)| == |ds|
    ensures forall k :: 0 <= k < |ds| ==> IsDigits(ds[k]) && NumericParts(ds)[k] == DecimalValue(ds[k])
  {
    if ds != [] {
      NumericPartsOfDigits(ds[1..]);
      var rest := NumericParts(ds[1..]);
      assert NumericParts(ds) == [DecimalValue(ds[0])] + rest;
      forall k | 0 < k < |ds| ensures IsDigits(ds[k]) && NumericParts(ds)[k] == DecimalValue(ds[k]) {
        assert ds[1..][k - 1] == ds[k];
      }
    }
  }

  /** N.N has the MajorMinor shape and parses to its two numbers. */
  lemma ParseMajorMinor(m: string, n: string)
    requires IsDigits(m) && IsDigits(n)
    ensures HasShape(m + "." + n, MajorMinor)
    ensures ParseVersion(m + "." + n) == [DecimalValue(m), DecimalValue(n)]
  {
    var s := m + "." + n;
    DigitsFacts(m);
    DigitsFacts(n);
    JoinTwo([m, n], '.');
    SplitJoin([m, n], '.');
    assert Split(s, '.') == [m, n];
    EndsInDigit(s, n);
    NumericPartsOfDigits([m, n]);
  }

  /** N.N.N has the MajorMinorPatch shape and parses to its three numbers. */
  lemma ParseMajorMinorPatch(m: string, n: string, k: string)
    requires IsDigits(m) && IsDigits(n) && IsDigits(k)
    ensures HasShape(m + "." + n + "." + k, MajorMinorPatch)
    ensures ParseVersion(m + "." + n + "." + k) == [DecimalValue(m), DecimalValue(n), DecimalValue(k)]
  {
    var s := m + "." + n + "." + k;
    DigitsFacts(m);
    DigitsFacts(n);
    DigitsFacts(k);
    JoinThree([m, n, k], '.');
    SplitJoin([m, n, k], '.');
    assert Split(s, '.') == [m, n, k];
    EndsInDigit(s, k);
    NumericPartsOfDigits([m, n, k]);
  }

  /** N.x has the MajorX shape and parses to its one number: the x is stripped. */
  lemma ParseMajorX(m: string)
    requires IsDigits(m)
    ensures HasShape(m + ".x", MajorX)
    ensures ParseVersion(m + ".x") == [DecimalValue(m)]
  {
    DigitsFacts(m);
    assert '.' !in "x";
    JoinTwo([m, "x"], '.');
    SplitJoin([m, "x"], '.');
    assert m + ".x" == m + ['.'] + "x";
    assert Split(m + ".x", '.') == [m, "x"];
    RStripSuffix(m, ".x", {'.', 'x'});
    SplitJoin([m], '.');
    NumericPartsOfDigits([m]);
  }

  /** N.N.x has the MajorMinorX shape and parses to its two numbers: the x is stripped. */
  lemma ParseMajorMinorX(m: string, n: string)
    requires IsDigits(m) && IsDigits(n)
    ensures HasShape(m + "." + n + ".x", MajorMinorX)
    ensures ParseVersion(m + "." + n + ".x") == [DecimalValue(m), DecimalValue(n)]
  {
    var q := m + "." + n;
    DigitsFacts(m);
    DigitsFacts(n);
    assert '.' !in "x";
    JoinThree([m, n, "x"], '.');
    SplitJoin([m, n, "x"], '.');
    assert q + ".x" == m + ['.'] + n + ['.'] + "x";
    assert Split(q + ".x", '.') == [m, n, "x"];
    RStripSuffix(q, ".x", {'.', 'x'});
    ParseMajorMinor(m, n);
  }

  /** Two N.N names with the same major differ by their minors, read as numbers. */
  lemma MinorOrder(m: string, n: string, k: string)
    requires IsDigits(m) && IsDigits(n) && IsDigits(k)
    ensures VersionOrder(m + "." + n, m + "." + k) == DecimalValue(n) - DecimalValue(k)
  {
    ParseMajorMinor(m, n);
    ParseMajorMinor(m, k);
    var a, b, c := DecimalValue(m), DecimalValue(n), DecimalValue(k);
    assert Compare([b], [c]) == b as int - c as int by {
      assert [b][1..] == [] && [c][1..] == [];
      assert Padded([b], 0) == b && Padded([c], 0) == c;
    }
    assert Compare([a, b], [a, c]) == Compare([b], [c]) by {
      assert [a, b][1..] == [b] && [a, c][1..] == [c];
      assert Padded([a, b], 0) == a && Padded([a, c], 0) == a;
    }
  }

  /** Version ordering is numeric, not textual: "2.10" is newer than "2.9". */
  lemma NumericOrderExample()
    ensures VersionOrder("2.10", "2.9") > 0
  {
    assert IsDigits("2") && IsDigits("10") && IsDigits("9");
    MinorOrder("2", "10", "9");
    assert "2" + "." + "10" == "2.10";
    assert "2" + "." + "9" == "2.9";
    assert DecimalValue("10") == 10 by { assert "10"[..1] == "1"; assert "1"[..0] == ""; }
    assert DecimalValue("9") == 9 by { assert "9"[..0] == ""; }
  }

  /** Missing components count as zero: N.N ties with N.N.0 (any spelling of zero) and with N.N.x. */
  lemma ZeroPadding(m: string, n: string, z: string)
    requires IsDigits(m) && IsDigits(n) && IsDigits(z) && DecimalValue(z) == 0
    ensures VersionOrder(m + "." + n, m + "." + n + "." + z) == 0
    ensures VersionOrder(m + "." + n, m + "." + n + ".x") == 0
  {
    ParseMajorMinor(m, n);
    ParseMajorMinorPatch(m, n, z);
    ParseMajorMinorX(m, n);
    var a, b := DecimalValue(m), DecimalValue(n);
    assert Compare([], [0]) == 0 by {
      assert Padded([], 0) == 0 && Padded([0], 0) == 0 && [0][1..] == [];
    }
    assert Compare([b], [b, 0]) == 0 by {
      assert [b][1..] == [] && [b, 0][1..] == [0];
    }
    assert Compare([a, b], [a, b, 0]) == 0 by {
      assert [a, b][1..] == [b] && [a, b, 0][1..] == [b, 0];
    }
    CompareZeroIff([a, b], [a, b]);
  }

  /** The trailing x is stripped: "2.4.x" parses to (2, 4). */
  lemma ParseMinorXExample()
    ensures ParseVersion("2.4.x") == [2, 4]
  {
    ParseMajorMinorX("2", "4");
    assert "2" + "." + "4" + ".x" == "2.4.x";
    assert DecimalValue("2") == 2 by { assert "2"[..0] == ""; }
    assert DecimalValue("4") == 4 by { assert "4"[..0] == ""; }
  }

  /** The trailing x is stripped: "2.x" parses to (2). */
  lemma ParseMajorXExample()
    ensures ParseVersion("2.x") == [2]
  {
    ParseMajorX("2");
    assert "2" + ".x" == "2.x";
    assert DecimalValue("2") == 2 by { assert "2"[..0] == ""; }
  }

  /** Majors-only mode keeps only N.N; all-release mode also keeps N.N.N and N.N.x. */
  lemma ShapeModes(m: string, n: string, k: string)
    requires IsDigits(m) && IsDigits(n) && IsDigits(k)
    ensures IsReleaseBranch(m + "." + n, true) && IsReleaseBranch(m + "." + n, false)
    ensures !IsReleaseBranch(m + "." + n + "." + k, true) && IsReleaseBranch(m + "." + n + "." + k, false)
    ensures !IsReleaseBranch(m + "." + n + ".x", true) && IsReleaseBranch(m + "." + n + ".x", false)
  {
    var patch, minorX := m + "." + n + "." + k, m + "." + n + ".x";
    ParseMajorMinor(m, n);
    ParseMajorMinorPatch(m, n, k);
    ParseMajorMinorX(m, n);
    assert patch[|patch| - 1] == k[|k| - 1];
    assert minorX[|minorX| - 1] == 'x';
    assert MajorMinor in ReleaseBranchPatterns && MajorMinorPatch in ReleaseBranchPatterns;
    assert MajorMinorX in ReleaseBranchPatterns;
  }

  /** In majors-only mode every accepted name is digits.digits, up to one final newline. */
  lemma MajorOnlyShape(b: string)
    requires IsReleaseBranch(b, true)
    ensures var core := if HasShape(b, MajorMinor) then b else b[..|b| - 1];
      exists m, n :: IsDigits(m) && IsDigits(n) && core == m + "." + n
  {
    var core := if HasShape(b, MajorMinor) then b else b[..|b| - 1];
    var p := Split(core, '.');
    JoinSplit(core, '.');
    JoinTwo(p, '.');
    assert core == p[0] + "." + p[1];
  }

  // ---------------------------------------------------------------------------
  // Sorting newest first: `sorted(..., key=cmp_to_key(_version_compare), reverse=True)`

  /** Insert x in front of the first entry it is at least as new as. */
  function InsertNewestFirst(x: string, s: seq<string>): seq<string> {
    if s == [] || VersionOrder(x, s[0]) >= 0 then [x] + s
    else [s[0]] + InsertNewestFirst(x, s[1..])
  }

  /** A stable sort, newest first; entries that tie keep their input order. */
  function SortNewestFirst(s: seq<string>): seq<string> {
    if s == [] then [] else InsertNewestFirst(s[0], SortNewestFirst(s[1..]))
  }

  /** Every entry is at least as new as every later entry. */
  ghost predicate NewestFirst(s: seq<string>) {
    forall i, j :: 0 <= i < j < |s| ==> VersionOrder(s[i], s[j]) >= 0
  }

  /** The entries of s that tie with x, in the order s has them. */
  function Peers(s: seq<string>, x: string): seq<string> {
    if s == [] then []
    else (if VersionOrder(s[0], x) == 0 then [s[0]] else []) + Peers(s[1..], x)
  }

  lemma {:induction false} InsertIsPermutation(x: string, s: seq<string>)
    ensures multiset(InsertNewestFirst(x, s)) == multiset(s) + multiset{x}
  {
    if s == [] || VersionOrder(x, s[0]) >= 0 {
      assert InsertNewestFirst(x, s) == [x] + s;
      MultisetCons(x, s);
    } else {
      var t := InsertNewestFirst(x, s[1..]);
      assert InsertNewestFirst(x, s) == [s[0]] + t;
      InsertIsPermutation(x, s[1..]);
      PermutationCons(s[0], t, s[1..], x);
      HeadTail(s);
    }
  }

  lemma PermutationCons(h: string, t: seq<string>, u: seq<string>, x: string)
    requires multiset(t) == multiset(u) + multiset{x}
    ensures multiset([h] + t) == multiset([h] + u) + multiset{x}
  {
    MultisetCons(h, t);
    MultisetCons(h, u);
  }

  /** x is at least as new as every entry of s. */
  ghost predicate AtLeastAll(x: string, s: seq<string>) {
    forall z :: z in s ==> VersionOrder(x, z) >= 0
  }

  lemma NewestFirstCons(h: string, t: seq<string>)
    ensures NewestFirst([h] + t) <==> AtLeastAll(h, t) && NewestFirst(t)
  {
    var r := [h] + t;
    if NewestFirst(r) {
      forall z | z in t ensures VersionOrder(h, z) >= 0 {
        var k :| 0 <= k < |t| && t[k] == z;
        assert r[0] == h && r[k + 1] == z;
      }
      forall i, j | 0 <= i < j < |t| ensures VersionOrder(t[i], t[j]) >= 0 {
        assert r[i + 1] == t[i] && r[j + 1] == t[j];
      }
    }
    if AtLeastAll(h, t) && NewestFirst(t) {
      forall i, j | 0 <= i < j < |r| ensures VersionOrder(r[i], r[j]) >= 0 {
        assert r[j] == t[j - 1];
        if i > 0 {
          assert r[i] == t[i - 1];
        }
      }
    }
  }

  lemma {:induction false} InsertKeepsOrder(x: string, s: seq<string>)
    requires NewestFirst(s)
    ensures NewestFirst(InsertNewestFirst(x, s))
  {
    if s == [] || VersionOrder(x, s[0]) >= 0 {
      if s != [] {
        AtLeastAllFromHead(x, s);
      }
      assert InsertNewestFirst(x, s) == [x] + s;
      NewestFirstCons(x, s);
    } else {
      var t := InsertNewestFirst(x, s[1..]);
      NewestFirstTail(s);
      InsertKeepsOrder(x, s[1..]);
      InsertIsPermutation(x, s[1..]);
      VersionOrderAntisymmetric(x, s[0]);
      AtLeastAllAfterInsert(s[0], x, s[1..], t);
      assert InsertNewestFirst(x, s) == [s[0]] + t;
      NewestFirstCons(s[0], t);
    }
  }

  /** The tail of a newest-first sequence is newest first, and its head is at least as new as all of it. */
  lemma NewestFirstTail(s: seq<string>)
    requires s != [] && NewestFirst(s)
    ensures NewestFirst(s[1..]) && AtLeastAll(s[0], s[1..])
  {
    HeadTail(s);
    NewestFirstCons(s[0], s[1..]);
  }

  /** What is at least as new as the head of a newest-first sequence is at least as new as all of it. */
  lemma AtLeastAllFromHead(x: string, s: seq<string>)
    requires s != [] && NewestFirst(s) && VersionOrder(x, s[0]) >= 0
    ensures AtLeastAll(x, s)
  {
    forall z | z in s ensures VersionOrder(x, z) >= 0 {
      var k :| 0 <= k < |s| && s[k] == z;
      if k > 0 {
        assert VersionOrder(s[0], s[k]) >= 0;
        VersionOrderTransitive(x, s[0], z);
      }
    }
  }

  /** Being at least as new as every entry survives adding an older entry. */
  lemma AtLeastAllAfterInsert(h: string, x: string, u: seq<string>, t: seq<string>)
    requires multiset(t) == multiset(u) + multiset{x}
    requires AtLeastAll(h, u) && VersionOrder(h, x) >= 0
    ensures AtLeastAll(h, t)
  {
    forall z | z in t ensures VersionOrder(h, z) >= 0 {
      assert z in multiset(t);
      if z != x {
        assert z in multiset(u);
      }
    }
  }

  /** Peers of a sequence with a known head. */
  lemma PeersCons(h: string, t: seq<string>, y: string)
    ensures Peers([h] + t, y) == (if VersionOrder(h, y) == 0 then [h] else []) + Peers(t, y)
  {
    assert ([h] + t)[1..] == t;
  }

  /** Inserting x adds it to its tie class in front, and leaves every other class alone. */
  lemma {:induction false} InsertPeers(x: string, s: seq<string>, y: string)
    ensures Peers(InsertNewestFirst(x, s), y) == (if VersionOrder(x, y) == 0 then [x] else []) + Peers(s, y)
  {
    if s == [] || VersionOrder(x, s[0]) >= 0 {
      PeersCons(x, s, y);
    } else {
      var t := InsertNewestFirst(x, s[1..]);
      var rest := Peers(s[1..], y);
      assert InsertNewestFirst(x, s) == [s[0]] + t;
      PeersCons(s[0], t, y);
      InsertPeers(x, s[1..], y);
      assert Peers(s, y) == (if VersionOrder(s[0], y) == 0 then [s[0]] else []) + rest;
      if VersionOrder(s[0], y) == 0 {
        if VersionOrder(x, y) == 0 {
          VersionOrderAntisymmetric(s[0], y);
          VersionOrderTransitive(x, y, s[0]);
          assert false;
        }
        assert Peers(t, y) == rest;
      } else if VersionOrder(x, y) == 0 {
        assert Peers(t, y) == [x] + rest;
      } else {
        assert Peers(t, y) == rest;
      }
    }
  }

  /** The sort is newest first. */
  lemma {:induction false} SortIsNewestFirst(s: seq<string>)
    ensures NewestFirst(SortNewestFirst(s))
  {
    if s != [] {
      SortIsNewestFirst(s[1..]);
      InsertKeepsOrder(s[0], SortNewestFirst(s[1..]));
    }
  }

  /** The sort is a permutation of its input; duplicates are kept. */
  lemma {:induction false} SortIsPermutation(s: seq<string>)
    ensures multiset(SortNewestFirst(s)) == multiset(s)
  {
    if s != [] {
      SortIsPermutation(s[1..]);
      InsertIsPermutation(s[0], SortNewestFirst(s[1..]));
      assert s == [s[0]] + s[1..];
    }
  }

  /** The sort is stable: each tie class appears in input order. */
  lemma {:induction false} SortIsStable(s: seq<string>, y: string)
    ensures Peers(SortNewestFirst(s), y) == Peers(s, y)
  {
    if s != [] {
      SortIsStable(s[1..], y);
      InsertPeers(s[0], SortNewestFirst(s[1..]), y);
    }
  }

  // ---------------------------------------------------------------------------
  // detect_release_branches and filter_branches

  /** `s[:n]` for a Python int n (a negative n drops entries from the end). */
  function SliceTo(s: seq<string>, n: int): (r: seq<string>)
    ensures |r| <= |s| && r == s[..|r|]
    ensures n >= 0 ==> |r| == if n <= |s| then n else |s|
    ensures n < 0 ==> |r| == if |s| + n > 0 then |s| + n else 0
  {
    if n >= 0 then (if n <= |s| then s[..n] else s)
    else if |s| + n > 0 then s[..|s| + n] else []
  }

  /** `limit` applied only when truthy: None and 0 keep everything. */
  function ApplyLimit(s: seq<string>, limit: Option<int>): (r: seq<string>)
    ensures |r| <= |s| && r == s[..|r|]
    ensures limit == None || limit == Some(0) ==> r == s
    ensures limit.Some? && limit.value > 0 ==> |r| == if limit.value < |s| then limit.value else |s|
  {
    if limit == None || limit.value == 0 then s else SliceTo(s, limit.value)
  }

  /**
   * `detect_release_branches`: drop the excluded branch, keep the names of
   * the mode's shape, sort them newest first and apply the limit.
   */
  method DetectReleaseBranches(all: seq<string>, exclude: Option<string>, majorOnly: bool, limit: Option<int>)
    returns (r: seq<string>)
    ensures r == ApplyLimit(SortNewestFirst(ReleaseCandidates(all, exclude, majorOnly)), limit)
    ensures forall i :: 0 <= i < |r| ==> Selected(r[i], exclude, majorOnly)
    ensures NewestFirst(r)
    ensures limit == None || limit == Some(0) ==>
      multiset(r) == multiset(ReleaseCandidates(all, exclude, majorOnly))
  {
    var release := SelectReleaseBranches(all, exclude, majorOnly);
    var sorted := SortNewestFirst(release);
    r := ApplyLimit(sorted, limit);
    LimitedSortFacts(all, exclude, majorOnly, limit);
  }

  /** The selection loop of `detect_release_branches`, before sorting. */
  method SelectReleaseBranches(all: seq<string>, exclude: Option<string>, majorOnly: bool)
    returns (release: seq<string>)
    ensures release == ReleaseCandidates(all, exclude, majorOnly)
  {
    release := [];
    var i := 0;
    while i < |all|
      invariant 0 <= i <= |all|
      invariant release == ReleaseCandidates(all[..i], exclude, majorOnly)
    {
      var branch := all[i];
      CandidatesStep(all, i, exclude, majorOnly);
      if Some(branch) == exclude {
        i := i + 1;
        continue;
      }
      assert Selected(branch, exclude, majorOnly) == IsReleaseBranch(branch, majorOnly);
      if majorOnly {
        if Matches(MajorMinor, branch) {
          release := release + [branch];
        }
      } else {
        if exists shape :: shape in ReleaseBranchPatterns && Matches(shape, branch) {
          release := release + [branch];
        }
      }
      i := i + 1;
    }
    assert all[..|all|] == all;
  }

  /** One more input entry extends the selection by that entry when it is selected. */
  lemma CandidatesStep(all: seq<string>, i: nat, exclude: Option<string>, majorOnly: bool)
    requires i < |all|
    ensures ReleaseCandidates(all[..i + 1], exclude, majorOnly) ==
      ReleaseCandidates(all[..i], exclude, majorOnly) + (if Selected(all[i], exclude, majorOnly) then [all[i]] else [])
  {
    assert all[..i + 1][..i] == all[..i];
  }

  /** The limited sort of the selection is newest first, holds only selected entries and, unlimited, all of them. */
  lemma LimitedSortFacts(all: seq<string>, exclude: Option<string>, majorOnly: bool, limit: Option<int>)
    ensures var r := ApplyLimit(SortNewestFirst(ReleaseCandidates(all, exclude, majorOnly)), limit);
      && (forall i :: 0 <= i < |r| ==> Selected(r[i], exclude, majorOnly))
      && NewestFirst(r)
      && (limit == None || limit == Some(0) ==> multiset(r) == multiset(ReleaseCandidates(all, exclude, majorOnly)))
  {
    var release := ReleaseCandidates(all, exclude, majorOnly);
    var sorted := SortNewestFirst(release);
    SortIsNewestFirst(release);
    SortIsPermutation(release);
    var r := ApplyLimit(sorted, limit);
    forall i, j | 0 <= i < j < |r| ensures VersionOrder(r[i], r[j]) >= 0 {
      assert r[i] == sorted[i] && r[j] == sorted[j];
    }
    forall i | 0 <= i < |r| ensures Selected(r[i], exclude, majorOnly) {
      assert r[i] == sorted[i];
      assert sorted[i] in multiset(release);
      assert r[i] in release;
    }
  }

  /** `filter_branches`: the requested targets that exist, in requested order. */
  function FilterBranches(all: seq<string>, targets: seq<string>): (r: seq<string>)
    ensures IsSubsequence(r, targets)
  {
    if targets == [] then []
    else
      var rest := FilterBranches(all, targets[1..]);
      SubsequenceOfTail(rest, targets);
      if targets[0] in all then [targets[0]] + rest else rest
  }

  /** Each existing target is kept as often as it was requested; the others are dropped. */
  lemma {:induction false} FilterBranchesCount(all: seq<string>, targets: seq<string>, b: string)
    ensures multiset(FilterBranches(all, targets))[b] == if b in all then multiset(targets)[b] else 0
  {
    if targets != [] {
      FilterBranchesCount(all, targets[1..], b);
      assert targets == [targets[0]] + targets[1..];
      assert multiset(targets) == multiset{targets[0]} + multiset(targets[1..]);
    }
  }

  /** r can be obtained from s by deleting entries. */
  predicate IsSubsequence(r: seq<string>, s: seq<string>)
    decreases |s|
  {
    r == [] || (s != [] && ((r[0] == s[0] && IsSubsequence(r[1..], s[1..])) || IsSubsequence(r, s[1..])))
  }

  lemma SubsequenceOfTail(r: seq<string>, s: seq<string>)
    requires s != [] && IsSubsequence(r, s[1..])
    ensures IsSubsequence(r, s) && IsSubsequence([s[0]] + r, s)
  {
    assert ([s[0]] + r)[1..] == r;
  }

  /** The worked example: order follows the request and missing names are dropped. */
  lemma FilterBranchesExample()
    ensures FilterBranches(["main", "2.4", "2.5"], ["2.4", "2.6"]) == ["2.4"]
    ensures FilterBranches(["main", "2.4", "2.5", "2.3"], ["2.4", "2.5"]) == ["2.4", "2.5"]
  {
    assert "2.6" !in ["main", "2.4", "2.5"];
  }
}
