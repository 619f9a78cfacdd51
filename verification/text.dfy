/** The string functions of Go's standard library that the operator leans on. */
module Text {

  /** The pieces of `s` between occurrences of `sep`. */
  function Split(s: string, sep: char): (items: seq<string>)
    ensures items != []
  {
    if s == "" then [""]
    else
      Attach(s[0], sep, Split(s[1..], sep))
  }

  /** The pieces of a string that starts with `c`, from those of its tail. */
  function Attach(c: char, sep: char, rest: seq<string>): (items: seq<string>)
    requires rest != []
    ensures items != []
  {
    if c == sep then [""] + rest else [[c] + rest[0]] + rest[1..]
  }

  function Join(items: seq<string>, sep: char): string {
    if items == [] then ""
    else if |items| == 1 then items[0]
    else items[0] + [sep] + Join(items[1..], sep)
  }

  predicate Contains(s: string, sub: string) {
    exists i :: 0 <= i <= |s| && Occurs(s, sub, i)
  }

  predicate Occurs(s: string, sub: string, i: int) {
    0 <= i <= |s| - |sub| && s[i..i + |sub|] == sub
  }

  predicate HasPrefix(s: string, prefix: string) {
    prefix <= s
  }

  function ToLower(s: string): (l: string)
    ensures |l| == |s|
  {
    if s == "" then "" else [LowerChar(s[0])] + ToLower(s[1..])
  }

  function LowerChar(c: char): char {
    if 'A' <= c <= 'Z' then c - 'A' + 'a' else c
  }

  // ------------------------------------------------------- Split and Join

  lemma {:induction false} JoinSplit(s: string, sep: char)
    ensures Join(Split(s, sep), sep) == s
  {
    if s != "" {
      JoinSplit(s[1..], sep);
      var rest := Split(s[1..], sep);
      if s[0] == sep {
        assert ([""] + rest)[1..] == rest;
      } else {
        var items := [[s[0]] + rest[0]] + rest[1..];
        assert items[1..] == rest[1..];
        assert Join(items, sep) == [s[0]] + Join(rest, sep);
      }
    }
  }

  lemma {:induction false} SplitAtom(s: string, sep: char)
    requires sep !in s
    ensures Split(s, sep) == [s]
  {
    if s != "" {
      SplitAtom(s[1..], sep);
      assert [s[0]] + s[1..] == s;
    }
  }

  lemma AttachConcat(c: char, sep: char, r: seq<string>, q: seq<string>)
    requires r != []
    ensures Attach(c, sep, r + q) == Attach(c, sep, r) + q
  {
    assert (r + q)[1..] == r[1..] + q;
  }

  /** Splitting distributes over a separator. */
  lemma {:induction false} SplitConcat(a: string, b: string, sep: char)
    ensures Split(a + [sep] + b, sep) == Split(a, sep) + Split(b, sep)
  {
    var whole := a + [sep] + b;
    if a == "" {
      assert whole[1..] == b;
    } else {
      assert whole[1..] == a[1..] + [sep] + b;
      SplitConcat(a[1..], b, sep);
      AttachConcat(a[0], sep, Split(a[1..], sep), Split(b, sep));
    }
  }

  /** The pieces hold only characters of `s`, and never the separator. */
  lemma {:induction false} PieceChars(s: string, sep: char, i: nat, c: char)
    requires i < |Split(s, sep)| && c in Split(s, sep)[i]
    ensures c in s && c != sep
  {
    if s != "" {
      var rest := Split(s[1..], sep);
      if s[0] == sep {
        assert i > 0;
        PieceChars(s[1..], sep, i - 1, c);
      } else if i > 0 {
        PieceChars(s[1..], sep, i, c);
      } else if c != s[0] {
        PieceChars(s[1..], sep, 0, c);
      }
    }
  }

  lemma {:induction false} SplitCount(s: string, sep: char)
    ensures |Split(s, sep)| > 1 <==> sep in s
  {
    if s != "" {
      SplitCount(s[1..], sep);
    }
  }

  /** Split undoes Join for pieces free of the separator. */
  lemma {:induction false} SplitJoin(items: seq<string>, sep: char)
    requires items != [] && forall i | 0 <= i < |items| :: sep !in items[i]
    ensures Split(Join(items, sep), sep) == items
  {
    SplitAtom(items[0], sep);
    if |items| == 1 {
      assert items == [items[0]];
    } else {
      SplitJoin(items[1..], sep);
      SplitConcat(items[0], Join(items[1..], sep), sep);
      assert items == [items[0]] + items[1..];
    }
  }

  lemma {:induction false} JoinKeepsOut(items: seq<string>, sep: char, c: char)
    requires c != sep && forall i | 0 <= i < |items| :: c !in items[i]
    ensures c !in Join(items, sep)
  {
    if |items| > 1 {
      JoinKeepsOut(items[1..], sep, c);
    }
  }

  // ---------------------------------------------------------------- numbers

  const MAX_INT: int := 0x7fff_ffff_ffff_ffff
  const MAX_UINT: int := 0xffff_ffff_ffff_ffff

  predicate IsDigit(c: char) {
    '0' <= c <= '9'
  }

  function DigitValue(c: char): (d: int)
    requires IsDigit(c)
    ensures 0 <= d <= 9
  {
    c as int - '0' as int
  }

  function DigitChar(d: nat): (c: char)
    requires d <= 9
    ensures IsDigit(c) && DigitValue(c) == d
  {
    '0' + d as char
  }

  /** Reads decimal digits after a number `n` already read: -1 at a character
      that is no digit, MAX_UINT as soon as the number outgrows 64 bits. */
  function ScanUint(s: string, n: nat): (r: int)
    ensures -1 <= r
  {
    if s == "" then n
    else if !IsDigit(s[0]) then -1
    else
      var m := 10 * n + DigitValue(s[0]);
      if m > MAX_UINT then MAX_UINT else ScanUint(s[1..], m)
  }

  /** The number Atoi returns, on success and on error alike: 0 for a syntax
      error, the nearest 64-bit integer for a range error. */
  function Atoi(s: string): int {
    var negative := s != "" && s[0] == '-';
    var digits := if s != "" && (s[0] == '-' || s[0] == '+') then s[1..] else s;
    var u := if digits == "" then -1 else ScanUint(digits, 0);
    if u < 0 then 0
    else if negative then (if u > MAX_INT then -MAX_INT - 1 else -u)
    else if u > MAX_INT then MAX_INT
    else u
  }

  function Decimal(n: nat): (s: string)
    ensures s != "" && forall i | 0 <= i < |s| :: IsDigit(s[i])
  {
    if n < 10 then [DigitChar(n)] else Decimal(n / 10) + [DigitChar(n % 10)]
  }

  lemma {:induction false} ScanDecimal(n: nat, rest: string)
    requires n <= MAX_UINT
    ensures ScanUint(Decimal(n) + rest, 0) == ScanUint(rest, n)
  {
    if n < 10 {
      assert (Decimal(n) + rest)[1..] == rest;
    } else {
      var d := DigitChar(n % 10);
      assert Decimal(n) + rest == Decimal(n / 10) + ([d] + rest);
      ScanDecimal(n / 10, [d] + rest);
      assert ([d] + rest)[1..] == rest;
    }
  }

  /** Reading back a printed number. */
  lemma AtoiDecimal(n: nat)
    requires n <= MAX_INT
    ensures Atoi(Decimal(n)) == n
  {
    ScanDecimal(n, "");
    assert Decimal(n) + "" == Decimal(n);
    assert IsDigit(Decimal(n)[0]);
  }

  // ------------------------------------------- what Atoi makes of any text

  predicate Negative(s: string) {
    s != "" && s[0] == '-'
  }

  /** The text after an optional sign. */
  function Unsigned(s: string): string {
    if s != "" && s[0] in {'-', '+'} then s[1..] else s
  }

  predicate AllDigits(s: string) {
    forall i | 0 <= i < |s| :: IsDigit(s[i])
  }

  /** The digits a text starts with. */
  function LeadingDigits(s: string): (d: string)
    ensures d <= s && AllDigits(d)
    ensures d == s || !IsDigit(s[|d|])
  {
    if s == "" || !IsDigit(s[0]) then "" else [s[0]] + LeadingDigits(s[1..])
  }

  /** The number that digits stand for when they follow those of `n`. */
  function Follow(n: nat, digits: string): nat
    requires AllDigits(digits)
    decreases |digits|
  {
    if digits == "" then n else Follow(10 * n + DigitValue(digits[0]), digits[1..])
  }

  /** The number that digits stand for. */
  function Value(digits: string): nat
    requires AllDigits(digits)
  {
    Follow(0, digits)
  }

  /** Digits and nothing else after an optional sign. */
  predicate IsNumeral(s: string) {
    Unsigned(s) != "" && AllDigits(Unsigned(s))
  }

  function SignedValue(s: string): int
    requires IsNumeral(s)
  {
    var n: int := Value(Unsigned(s)); if Negative(s) then -n else n
  }

  /** A signed 64-bit decimal. */
  predicate IsInt64(s: string) {
    IsNumeral(s) && -MAX_INT - 1 <= SignedValue(s) <= MAX_INT
  }

  /** Too big for 64 bits: the text is a numeral out of range, or whatever follows,
      its digits overflow before anything else is seen. */
  predicate Overflows(s: string) {
    || (IsNumeral(s) && !IsInt64(s))
    || Value(LeadingDigits(Unsigned(s))) > MAX_UINT
  }

  lemma {:induction false} FollowGrows(n: nat, digits: string)
    requires AllDigits(digits)
    ensures n <= Follow(n, digits)
    decreases |digits|
  {
    if digits != "" {
      FollowGrows(10 * n + DigitValue(digits[0]), digits[1..]);
    }
  }

  lemma AllDigitsTail(s: string)
    requires s != "" && IsDigit(s[0])
    ensures AllDigits(s) <==> AllDigits(s[1..])
  {
    assert forall i | 0 < i < |s| :: s[i] == s[1..][i - 1];
  }

  /** Digits before anything else are all that counts if they overflow; otherwise
      anything else is an error. */
  lemma {:induction false} ScanExactly(s: string, n: nat)
    requires n <= MAX_UINT
    ensures ScanUint(s, n) == if Follow(n, LeadingDigits(s)) > MAX_UINT then MAX_UINT
                              else if AllDigits(s) then Follow(n, s)
                              else -1
  {
    if s != "" && IsDigit(s[0]) {
      var m := 10 * n + DigitValue(s[0]);
      AllDigitsTail(s);
      var d := LeadingDigits(s[1..]);
      assert LeadingDigits(s)[1..] == d;
      assert Follow(n, LeadingDigits(s)) == Follow(m, d);
      if m > MAX_UINT {
        FollowGrows(m, d);
      } else {
        ScanExactly(s[1..], m);
      }
    }
  }

  lemma {:induction false} AllLeading(s: string)
    requires AllDigits(s)
    ensures LeadingDigits(s) == s
  {
    if s != "" {
      AllLeading(s[1..]);
    }
  }

  /** A printed number is worth that number. */
  lemma {:induction false} ValueOfDecimal(n: nat, rest: string)
    requires AllDigits(rest)
    ensures AllDigits(Decimal(n) + rest) && Follow(0, Decimal(n) + rest) == Follow(n, rest)
  {
    if n < 10 {
      assert (Decimal(n) + rest)[1..] == rest;
    } else {
      var d := DigitChar(n % 10);
      assert Decimal(n) + rest == Decimal(n / 10) + ([d] + rest);
      ValueOfDecimal(n / 10, [d] + rest);
      assert ([d] + rest)[1..] == rest;
    }
  }

  /** What Atoi returns for any text: the number of a signed 64-bit decimal, the
      nearest one to digits that overflow, and otherwise 0. */
  lemma AtoiExactly(s: string)
    ensures IsInt64(s) ==> Atoi(s) == SignedValue(s)
    ensures Overflows(s) ==> Atoi(s) == if Negative(s) then -MAX_INT - 1 else MAX_INT
    ensures !IsInt64(s) && !Overflows(s) ==> Atoi(s) == 0
  {
    ScanExactly(Unsigned(s), 0);
    if AllDigits(Unsigned(s)) {
      AllLeading(Unsigned(s));
    }
  }

  /** A text that is no signed 64-bit decimal reads as 0 exactly if no overflow is
      met: after an optional sign, its digits up to the first other character are
      worth at most MAX_UINT, and it is not digits altogether. */
  lemma UnparsedIsZeroExactly(s: string)
    requires !IsInt64(s)
    ensures Atoi(s) == 0 <==> !IsNumeral(s) && Value(LeadingDigits(Unsigned(s))) <= MAX_UINT
  {
    AtoiExactly(s);
  }

  /** A printed number beyond 64 bits is not read as 0 but as the largest int. */
  lemma TooBigIsLargest(n: nat)
    requires n > MAX_INT
    ensures !IsInt64(Decimal(n)) && Atoi(Decimal(n)) == MAX_INT
  {
    assert Decimal(n) + "" == Decimal(n);
    ValueOfDecimal(n, "");
    assert IsDigit(Decimal(n)[0]);
    AtoiExactly(Decimal(n));
  }

  // ------------------------------------------------------------- lower case

  lemma LowerCharKeeps(c: char)
    ensures IsDigit(c) <==> IsDigit(LowerChar(c))
    ensures c in {'-', '.', '+'} || IsDigit(c) ==> LowerChar(c) == c
    ensures LowerChar(c) in {'-', '.', '+'} ==> LowerChar(c) == c
    ensures LowerChar(c) == 'v' <==> c in {'v', 'V'}
    ensures if 'A' <= c <= 'Z' then LowerChar(c) - 'a' == c - 'A' else LowerChar(c) == c
  {
  }

  function LowerAll(items: seq<string>): (l: seq<string>)
    ensures |l| == |items| && forall i | 0 <= i < |items| :: l[i] == ToLower(items[i])
  {
    if items == [] then [] else [ToLower(items[0])] + LowerAll(items[1..])
  }

  lemma {:induction false} LowerSplit(s: string, sep: char)
    requires sep in {'-', '.'}
    ensures Split(ToLower(s), sep) == LowerAll(Split(s, sep))
  {
    if s != "" {
      LowerSplit(s[1..], sep);
      LowerCharKeeps(s[0]);
      var rest := Split(s[1..], sep);
      assert ToLower(s)[1..] == ToLower(s[1..]);
      if s[0] != sep {
        assert ToLower([s[0]] + rest[0]) == [LowerChar(s[0])] + ToLower(rest[0]);
        assert LowerAll(rest)[1..] == LowerAll(rest[1..]);
      }
    }
  }

  lemma {:induction false} LowerScan(s: string, n: nat)
    ensures ScanUint(ToLower(s), n) == ScanUint(s, n)
  {
    if s != "" {
      LowerCharKeeps(s[0]);
      assert ToLower(s)[1..] == ToLower(s[1..]);
      if IsDigit(s[0]) {
        LowerScan(s[1..], 10 * n + DigitValue(s[0]));
      }
    }
  }

  lemma LowerAtoi(s: string)
    ensures Atoi(ToLower(s)) == Atoi(s)
  {
    if s != "" {
      LowerCharKeeps(s[0]);
      LowerScan(s, 0);
      LowerScan(s[1..], 0);
      assert ToLower(s)[1..] == ToLower(s[1..]);
    }
  }

  lemma {:induction false} LowerContains(s: string, c: char)
    requires c in {'-', '.'}
    ensures c in ToLower(s) <==> c in s
  {
    if s != "" {
      LowerCharKeeps(s[0]);
      LowerContains(s[1..], c);
    }
  }
}
