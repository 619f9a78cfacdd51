/** Parsing, printing and comparing version strings. */
module Versions {
  import opened Text

  datatype Version = Version(major: int, minor: int, fixpack: int, tag: int) {
    predicate Equal(other: Version) {
      major == other.major && minor == other.minor && fixpack == other.fixpack && tag == other.tag
    }

    predicate EqualWithoutTag(other: Version) {
      major == other.major && minor == other.minor && fixpack == other.fixpack
    }

    predicate LessThan(other: Version) {
      if major < other.major then true
      else if major > other.major then false
      else if minor < other.minor then true
      else if minor > other.minor then false
      else if fixpack < other.fixpack then true
      else if fixpack > other.fixpack then false
      else tag < other.tag
    }

    predicate GreaterThan(other: Version) {
      if major > other.major then true
      else if major < other.major then false
      else if minor > other.minor then true
      else if minor < other.minor then false
      else if fixpack > other.fixpack then true
      else if fixpack < other.fixpack then false
      else tag > other.tag
    }

    function Print(): string
      requires InRange(this)
    {
      Decimal(major) + "." + Decimal(minor) + "." + Decimal(fixpack) + "-" + Decimal(tag)
    }
  }

  datatype Release = V1 | V2

  const ZERO := Version(0, 0, 0, 0)

  /** Fields are non-negative and fit a 64-bit int. */
  predicate InRange(v: Version) {
    && 0 <= v.major <= MAX_INT && 0 <= v.minor <= MAX_INT
    && 0 <= v.fixpack <= MAX_INT && 0 <= v.tag <= MAX_INT
  }

  /** The strings between dots, with the part between the first two hyphens, if
      it is there and not empty, as one more. */
  function Fields(version: string): seq<string> {
    if '-' in version then
      var parts := Split(version, '-');
      SplitCount(version, '-');
      Split(parts[0], '.') + (if parts[1] != "" then [parts[1]] else [])
    else
      Split(version, '.')
  }

  function AtoiAll(fields: seq<string>): (ns: seq<int>)
    ensures |ns| == |fields| && forall i | 0 <= i < |fields| :: ns[i] == Atoi(fields[i])
  {
    if fields == [] then [] else [Atoi(fields[0])] + AtoiAll(fields[1..])
  }

  /** The loop that turns a version string into numbers. */
  method StringToIntList(version: string) returns (intList: seq<int>)
    ensures intList == AtoiAll(Fields(version))
  {
    var core, tag := version, "";
    if '-' in version {
      SplitCount(version, '-');
      var vList := Split(version, '-');
      core := vList[0];
      tag := vList[1];
    }
    var strList := Split(core, '.');
    if tag != "" {
      strList := strList + [tag];
    }
    intList := [];
    for i := 0 to |strList|
      invariant |intList| == i && forall j | 0 <= j < i :: intList[j] == Atoi(strList[j])
    {
      intList := intList + [Atoi(strList[i])];
    }
  }

  function FromInts(v: seq<int>): Version {
    match |v|
    case 1 => Version(v[0], 0, 0, 0)
    case 2 => Version(v[0], v[1], 0, 0)
    case 3 => Version(v[0], v[1], v[2], 0)
    case 4 => Version(v[0], v[1], v[2], v[3])
    case _ => ZERO
  }

  function Parse(version: string): Version {
    FromInts(AtoiAll(Fields(version)))
  }

  function StripVersionPrefix(version: string): string {
    var lower := ToLower(version);
    if HasPrefix(lower, "v") then lower[1..] else lower
  }

  function MajorRelease(version: string): Release {
    match Parse(StripVersionPrefix(version)).major
    case 2 => V2
    case 1 => V1
    case _ => V1
  }

  // ------------------------------------------------------- parsed versions

  lemma ScanFits(s: string, n: nat)
    requires n <= MAX_UINT
    ensures ScanUint(s, n) <= MAX_UINT
  {
  }

  lemma FieldsHaveNoHyphen(version: string, i: nat)
    requires i < |Fields(version)|
    ensures '-' !in Fields(version)[i]
  {
    if '-' in Fields(version)[i] {
      if '-' in version {
        SplitCount(version, '-');
        var parts := Split(version, '-');
        if i < |Split(parts[0], '.')| {
          PieceChars(parts[0], '.', i, '-');
          PieceChars(version, '-', 0, '-');
        } else {
          PieceChars(version, '-', 1, '-');
        }
      } else {
        PieceChars(version, '.', i, '-');
      }
    }
  }

  /** Every field parsed from any string whatsoever is non-negative and fits. */
  lemma ParseInRange(version: string)
    ensures InRange(Parse(version))
  {
    var fields := Fields(version);
    forall i | 0 <= i < |fields| ensures 0 <= Atoi(fields[i]) <= MAX_INT {
      FieldsHaveNoHyphen(version, i);
      ScanFits(fields[i], 0);
      assert fields[i] != "" ==> fields[i][0] in fields[i];
    }
  }

  lemma DigitsOnly(n: nat, c: char)
    requires !IsDigit(c)
    ensures c !in Decimal(n)
  {
  }

  predicate Plain(s: string) {
    s != "" && '-' !in s && '.' !in s
  }

  lemma SplitCore(a: string, b: string, c: string)
    requires Plain(a) && Plain(b) && Plain(c)
    ensures Split(a + "." + b + "." + c, '.') == [a, b, c]
  {
    assert a + "." + b + "." + c == a + ['.'] + (b + ['.'] + c);
    SplitConcat(a, b + ['.'] + c, '.');
    SplitConcat(b, c, '.');
    SplitAtom(a, '.');
    SplitAtom(b, '.');
    SplitAtom(c, '.');
  }

  lemma FieldsOfPrint(a: string, b: string, c: string, t: string)
    requires Plain(a) && Plain(b) && Plain(c) && Plain(t)
    ensures Fields(a + "." + b + "." + c + "-" + t) == [a, b, c, t]
  {
    var core := a + "." + b + "." + c;
    var whole := core + ['-'] + t;
    assert a + "." + b + "." + c + "-" + t == whole;
    assert whole[|core|] == '-';
    SplitConcat(core, t, '-');
    SplitAtom(core, '-');
    SplitAtom(t, '-');
    SplitCore(a, b, c);
  }

  lemma DecimalIsPlain(n: nat)
    ensures Plain(Decimal(n))
  {
    DigitsOnly(n, '-');
    DigitsOnly(n, '.');
  }

  /** Parsing undoes printing. */
  lemma ParsePrint(v: Version)
    requires InRange(v)
    ensures Parse(v.Print()) == v
  {
    DecimalIsPlain(v.major);
    DecimalIsPlain(v.minor);
    DecimalIsPlain(v.fixpack);
    DecimalIsPlain(v.tag);
    FieldsOfPrint(Decimal(v.major), Decimal(v.minor), Decimal(v.fixpack), Decimal(v.tag));
    ReadBack(v);
  }

  /** A field that does not fit is not 0: 9223372036854775808 parses to the largest
      major. */
  lemma FieldTooBigIsNotZero()
    ensures Parse(Decimal(MAX_INT + 1)) == Version(MAX_INT, 0, 0, 0)
  {
    var s := Decimal(MAX_INT + 1);
    DecimalIsPlain(MAX_INT + 1);
    SplitAtom(s, '.');
    TooBigIsLargest(MAX_INT + 1);
    assert Fields(s) == [s];
  }

  lemma ReadBack(v: Version)
    requires InRange(v)
    ensures FromInts(AtoiAll([Decimal(v.major), Decimal(v.minor), Decimal(v.fixpack), Decimal(v.tag)])) == v
  {
    AtoiDecimal(v.major);
    AtoiDecimal(v.minor);
    AtoiDecimal(v.fixpack);
    AtoiDecimal(v.tag);
  }

  /** Printing a parsed version and parsing it again changes nothing. */
  lemma ParseIsCanonical(version: string)
    ensures InRange(Parse(version)) && Parse(Parse(version).Print()) == Parse(version)
  {
    ParseInRange(version);
    ParsePrint(Parse(version));
  }

  /** LessThan is a strict total order, GreaterThan its converse and Equal its
      equality. */
  lemma LessThanIsStrictTotalOrder(u: Version, v: Version, w: Version)
    ensures !u.LessThan(u)
    ensures u.LessThan(v) && v.LessThan(w) ==> u.LessThan(w)
    ensures u.LessThan(v) || v.LessThan(u) || u == v
    ensures !(u.LessThan(v) && v.LessThan(u))
    ensures u.GreaterThan(v) <==> v.LessThan(u)
    ensures u.Equal(v) <==> u == v
  {
  }

  /** The first difference decides: of two lists of the same length, the one with the
      smaller number there is less. */
  predicate LexLess(a: seq<int>, b: seq<int>) {
    a != [] && b != [] && (a[0] < b[0] || (a[0] == b[0] && LexLess(a[1..], b[1..])))
  }

  /** Which order it is: major, minor and fixpack decide in turn, and the tag last. */
  lemma LessThanIsLexicographic(u: Version, v: Version)
    ensures u.LessThan(v) <==> LexLess([u.major, u.minor, u.fixpack, u.tag], [v.major, v.minor, v.fixpack, v.tag])
    ensures u.EqualWithoutTag(v) <==> [u.major, u.minor, u.fixpack] == [v.major, v.minor, v.fixpack]
  {
    LexLessFour(u.major, u.minor, u.fixpack, u.tag, v.major, v.minor, v.fixpack, v.tag);
  }

  lemma LexLessFour(a: int, b: int, c: int, d: int, a': int, b': int, c': int, d': int)
    ensures LexLess([a, b, c, d], [a', b', c', d'])
            <==> a < a' || (a == a' && (b < b' || (b == b' && (c < c' || (c == c' && d < d')))))
  {
    assert [a, b, c, d][1..] == [b, c, d] && [a', b', c', d'][1..] == [b', c', d'];
    assert [b, c, d][1..] == [c, d] && [b', c', d'][1..] == [c', d'];
    assert [c, d][1..] == [d] && [c', d'][1..] == [d'];
    assert LexLess([d], [d']) <==> d < d';
    assert LexLess([c, d], [c', d']) <==> c < c' || (c == c' && d < d');
  }

  /** What dots and hyphens mean: what follows a second hyphen is ignored, and so is a
      tag that is empty. */
  lemma FieldsExactly(core: string, tag: string, rest: string)
    requires '-' !in core && '-' !in tag
    ensures Fields(core) == Split(core, '.')
    ensures var fields := if tag == "" then Split(core, '.') else Split(core, '.') + [tag];
            Fields(core + ['-'] + tag) == fields && Fields(core + ['-'] + tag + ['-'] + rest) == fields
  {
    SplitAtom(core, '-');
    SplitAtom(tag, '-');
    SplitConcat(core, tag, '-');
    SplitConcat(core + ['-'] + tag, rest, '-');
    assert (core + ['-'] + tag)[|core|] == '-' && (core + ['-'] + tag + ['-'] + rest)[|core|] == '-';
  }

  /** Up to four fields count, whichever of dot and hyphen separates the last, and
      those that are missing are 0; with more than four the version is 0. */
  lemma ParseByFields(items: seq<string>, tag: string)
    requires items != [] && '-' !in tag
    requires forall i | 0 <= i < |items| :: '.' !in items[i] && '-' !in items[i]
    ensures var fields := if tag == "" then items else items + [tag];
            var v := Parse(Join(items, '.') + ['-'] + tag);
            if |fields| > 4 then v == ZERO
            else && v.major == Atoi(fields[0])
                 && v.minor == (if |fields| > 1 then Atoi(fields[1]) else 0)
                 && v.fixpack == (if |fields| > 2 then Atoi(fields[2]) else 0)
                 && v.tag == (if |fields| > 3 then Atoi(fields[3]) else 0)
    ensures tag == "" ==> Parse(Join(items, '.')) == Parse(Join(items, '.') + ['-'] + tag)
  {
    JoinKeepsOut(items, '.', '-');
    SplitJoin(items, '.');
    FieldsExactly(Join(items, '.'), tag, "");
  }

  /** The version a.b.c as it is written without a tag. */
  function Untagged(a: nat, b: nat, c: nat): string {
    Decimal(a) + "." + Decimal(b) + "." + Decimal(c)
  }

  lemma ParseUntagged(a: nat, b: nat, c: nat)
    requires a <= MAX_INT && b <= MAX_INT && c <= MAX_INT
    ensures Parse(Untagged(a, b, c)) == Version(a, b, c, 0)
  {
    DecimalIsPlain(a);
    DecimalIsPlain(b);
    DecimalIsPlain(c);
    SplitCore(Decimal(a), Decimal(b), Decimal(c));
    AtoiDecimal(a);
    AtoiDecimal(b);
    AtoiDecimal(c);
    assert AtoiAll([Decimal(a), Decimal(b), Decimal(c)]) == [a, b, c];
    DigitsOnly(a, '-');
    DigitsOnly(b, '-');
    DigitsOnly(c, '-');
    assert '-' !in Untagged(a, b, c);
  }

  /** On strings: a tag, however large, does not outweigh a smaller fixpack, and a
      positive one makes a version greater than the same without. */
  lemma TagDecidesLast(a: nat, b: nat, c: nat, tag: nat, d: nat)
    requires a <= MAX_INT && b <= MAX_INT && c <= MAX_INT && tag <= MAX_INT && d <= MAX_INT
    ensures var tagged, other := Parse(Untagged(a, b, c) + "-" + Decimal(tag)), Parse(Untagged(a, b, d));
            && (tagged.LessThan(other) <==> c < d)
            && (tagged.GreaterThan(other) <==> c > d || (c == d && tag > 0))
            && (tagged.EqualWithoutTag(other) <==> c == d)
  {
    ParsePrint(Version(a, b, c, tag));
    assert Version(a, b, c, tag).Print() == Untagged(a, b, c) + "-" + Decimal(tag);
    ParseUntagged(a, b, d);
  }

  /** "At least `threshold`" the way the controllers write it is, for an untagged
      threshold, the same as not being less, and so upward closed. */
  lemma AtLeastIsNotLess(v: Version, threshold: Version, later: Version)
    requires InRange(v) && InRange(later) && threshold.tag == 0
    ensures v.EqualWithoutTag(threshold) || v.GreaterThan(threshold) <==> !v.LessThan(threshold)
    ensures !v.LessThan(threshold) && !later.LessThan(v) ==> !later.LessThan(threshold)
  {
  }

  /** Three digits between dots are an untagged version. */
  lemma ParseDigits(s: string, a: nat, b: nat, c: nat)
    requires a <= 9 && b <= 9 && c <= 9
    requires s == [DigitChar(a), '.', DigitChar(b), '.', DigitChar(c)]
    ensures Parse(s) == Version(a, b, c, 0)
  {
    assert s == Decimal(a) + "." + Decimal(b) + "." + Decimal(c);
    DecimalIsPlain(a);
    DecimalIsPlain(b);
    DecimalIsPlain(c);
    SplitCore(Decimal(a), Decimal(b), Decimal(c));
    AtoiDecimal(a);
    AtoiDecimal(b);
    AtoiDecimal(c);
    assert AtoiAll([Decimal(a), Decimal(b), Decimal(c)]) == [a, b, c];
    assert '-' !in s;
  }

  // ------------------------------------------------------- the "v" prefix

  predicate VPrefixed(version: string) {
    version != "" && version[0] in {'v', 'V'}
  }

  lemma FieldsLower(version: string)
    ensures Fields(ToLower(version)) == LowerAll(Fields(version))
  {
    LowerContains(version, '-');
    LowerSplit(version, '-');
    if '-' in version {
      SplitCount(version, '-');
      var parts := Split(version, '-');
      LowerSplit(parts[0], '.');
      var tag := if parts[1] != "" then [parts[1]] else [];
      assert LowerAll(tag) == if parts[1] != "" then [ToLower(parts[1])] else [];
      LowerAppend(Split(parts[0], '.'), tag);
    } else {
      LowerSplit(version, '.');
    }
  }

  lemma LowerAppend(items: seq<string>, more: seq<string>)
    ensures LowerAll(items + more) == LowerAll(items) + LowerAll(more)
  {
  }

  lemma {:induction false} AtoiAllLower(fields: seq<string>)
    ensures AtoiAll(LowerAll(fields)) == AtoiAll(fields)
  {
    if fields != [] {
      LowerAtoi(fields[0]);
      AtoiAllLower(fields[1..]);
    }
  }

  /** Case does not matter to the parser. */
  lemma ParseLower(version: string)
    ensures Parse(ToLower(version)) == Parse(version)
  {
    FieldsLower(version);
    AtoiAllLower(Fields(version));
  }

  lemma FirstPiece(s: string, sep: char)
    requires s != "" && s[0] != sep
    ensures Split(s, sep)[0] != "" && Split(s, sep)[0][0] == s[0]
  {
  }

  lemma FirstFieldStartsAlike(version: string)
    requires version != "" && version[0] !in {'-', '.'}
    ensures Fields(version) != [] && Fields(version)[0] != "" && Fields(version)[0][0] == version[0]
  {
    if '-' in version {
      FirstPiece(version, '-');
      FirstPiece(Split(version, '-')[0], '.');
    } else {
      FirstPiece(version, '.');
    }
  }

  lemma WordIsZero(s: string)
    requires s != "" && !IsDigit(s[0]) && s[0] !in {'-', '+'}
    ensures Atoi(s) == 0
  {
  }

  lemma MajorIsFirstField(version: string)
    requires Fields(version) != [] && Atoi(Fields(version)[0]) == 0
    ensures Parse(version).major == 0
  {
  }

  /** A string that does not start like a number has major 0; with a "v" prefix
      this is so. */
  lemma WordMajorIsZero(version: string)
    requires version != "" && !IsDigit(version[0]) && version[0] !in {'-', '.', '+'}
    ensures Parse(version).major == 0
  {
    FirstFieldStartsAlike(version);
    WordIsZero(Fields(version)[0]);
    MajorIsFirstField(version);
  }

  /** The release a version belongs to and the version it compares as agree: a
      string that compares as a 2.x is a V2 release, and without a "v" prefix
      also the other way round. */
  lemma MajorReleaseAgrees(version: string)
    ensures Parse(version).major == 2 ==> MajorRelease(version) == V2
    ensures !VPrefixed(version) ==> (MajorRelease(version) == V2 <==> Parse(version).major == 2)
    ensures Parse(version).major >= 1 ==> !VPrefixed(version)
  {
    ParseLower(version);
    if VPrefixed(version) {
      WordMajorIsZero(version);
    } else if version != "" {
      LowerCharKeeps(version[0]);
      assert !HasPrefix(ToLower(version), "v");
    }
  }

  /** One "v" or "V" in front is stripped before the release is decided. */
  lemma PrefixIsStripped(version: string, v: char)
    requires v in {'v', 'V'}
    ensures MajorRelease([v] + version) == V2 <==> Parse(version).major == 2
  {
    ParseLower(version);
    assert ([v] + version)[1..] == version;
    assert ToLower([v] + version) == "v" + ToLower(version);
    assert HasPrefix(ToLower([v] + version), "v");
    assert StripVersionPrefix([v] + version) == ToLower(version);
  }
}
