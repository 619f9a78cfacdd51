/** Standard base64 (section 4 of RFC 4648) the way Go's library codes it, and the
    operator's decoder that also puts up with surplus padding. */
module Base64 {
  datatype Result = Ok(data: seq<Byte>) | Err

  type Byte = b: int | 0 <= b < 256

  /** Position in the alphabet to character. */
  function EncodeChar(d: int): (c: char)
    requires 0 <= d < 64
    ensures InAlphabet(c) && DecodeChar(c) == d
  {
    if d < 26 then 'A' + d as char
    else if d < 52 then 'a' + (d - 26) as char
    else if d < 62 then '0' + (d - 52) as char
    else if d == 62 then '+'
    else '/'
  }

  predicate InAlphabet(c: char) {
    'A' <= c <= 'Z' || 'a' <= c <= 'z' || '0' <= c <= '9' || c == '+' || c == '/'
  }

  function DecodeChar(c: char): (d: int)
    requires InAlphabet(c)
    ensures 0 <= d < 64
  {
    if 'A' <= c <= 'Z' then c as int - 'A' as int
    else if 'a' <= c <= 'z' then c as int - 'a' as int + 26
    else if '0' <= c <= '9' then c as int - '0' as int + 52
    else if c == '+' then 62
    else 63
  }

  function EncodeGroup(a: Byte, b: Byte, c: Byte): (s: string)
    ensures |s| == 4
  {
    [EncodeChar(a / 4), EncodeChar(a % 4 * 16 + b / 16), EncodeChar(b % 16 * 4 + c / 64), EncodeChar(c % 64)]
  }

  function EncodeTwo(a: Byte, b: Byte): string {
    [EncodeChar(a / 4), EncodeChar(a % 4 * 16 + b / 16), EncodeChar(b % 16 * 4), '=']
  }

  function EncodeOne(a: Byte): string {
    [EncodeChar(a / 4), EncodeChar(a % 4 * 16), '=', '=']
  }

  function BytesToBase64(data: seq<Byte>): string {
    if data == [] then ""
    else if |data| == 1 then EncodeOne(data[0])
    else if |data| == 2 then EncodeTwo(data[0], data[1])
    else EncodeGroup(data[0], data[1], data[2]) + BytesToBase64(data[3..])
  }

  /** Line breaks anywhere in the text are skipped. */
  function DropBreaks(s: string): string {
    if s == "" then ""
    else if s[0] == '\n' || s[0] == '\r' then DropBreaks(s[1..])
    else [s[0]] + DropBreaks(s[1..])
  }

  function Byte0(p: int, q: int): Byte
    requires 0 <= p < 64 && 0 <= q < 64
  {
    p * 4 + q / 16
  }

  function Byte1(q: int, r: int): Byte
    requires 0 <= q < 64 && 0 <= r < 64
  {
    q % 16 * 16 + r / 4
  }

  function Byte2(r: int, t: int): Byte
    requires 0 <= r < 64 && 0 <= t < 64
  {
    r % 4 * 64 + t
  }

  /** Decodes text without line breaks, four characters at a time.  Padding ends
      the text; unused bits of the last character are ignored. */
  function DecodeGroups(s: string): Result {
    if s == "" then Ok([])
    else if |s| < 4 || !InAlphabet(s[0]) || !InAlphabet(s[1]) then Err
    else
      var p, q := DecodeChar(s[0]), DecodeChar(s[1]);
      if s[2] == '=' then
        if s[3] == '=' && |s| == 4 then Ok([Byte0(p, q)]) else Err
      else if !InAlphabet(s[2]) then Err
      else
        var r := DecodeChar(s[2]);
        if s[3] == '=' then
          if |s| == 4 then Ok([Byte0(p, q), Byte1(q, r)]) else Err
        else if !InAlphabet(s[3]) then Err
        else
          var t := DecodeChar(s[3]);
          match DecodeGroups(s[4..])
          case Ok(rest) => Ok([Byte0(p, q), Byte1(q, r), Byte2(r, t)] + rest)
          case Err => Err
  }

  function DecodeString(s: string): Result {
    DecodeGroups(DropBreaks(s))
  }

  /** Decodes, and while that fails drops a trailing '=' and tries again. */
  function Base64ToBytes(s: string): Result {
    match DecodeString(s)
    case Ok(data) => Ok(data)
    case Err => if s != "" && s[|s| - 1] == '=' then Base64ToBytes(s[..|s| - 1]) else Err
  }

  // ------------------------------------------------------------- properties

  function Padding(k: nat): (s: string)
    ensures |s| == k && forall i | 0 <= i < k :: s[i] == '='
  {
    if k == 0 then "" else Padding(k - 1) + "="
  }

  lemma GroupRoundTrip(a: Byte, b: Byte, c: Byte)
    ensures var s := EncodeGroup(a, b, c);
            && InAlphabet(s[0]) && InAlphabet(s[1]) && InAlphabet(s[2]) && InAlphabet(s[3])
            && Byte0(DecodeChar(s[0]), DecodeChar(s[1])) == a
            && Byte1(DecodeChar(s[1]), DecodeChar(s[2])) == b
            && Byte2(DecodeChar(s[2]), DecodeChar(s[3])) == c
  {
  }

  lemma DecodeFour(w: char, x: char, y: char, z: char, rest: string)
    requires InAlphabet(w) && InAlphabet(x) && InAlphabet(y) && InAlphabet(z)
    ensures DecodeGroups([w, x, y, z] + rest)
            == match DecodeGroups(rest)
               case Ok(data) => Ok([Byte0(DecodeChar(w), DecodeChar(x)), Byte1(DecodeChar(x), DecodeChar(y)),
                                    Byte2(DecodeChar(y), DecodeChar(z))] + data)
               case Err => Err
  {
    assert ([w, x, y, z] + rest)[4..] == rest;
  }

  lemma DecodeThree(w: char, x: char, y: char, k: nat)
    requires InAlphabet(w) && InAlphabet(x) && InAlphabet(y)
    ensures DecodeGroups([w, x, y, '='] + Padding(k))
            == if k == 0 then Ok([Byte0(DecodeChar(w), DecodeChar(x)), Byte1(DecodeChar(x), DecodeChar(y))]) else Err
  {
  }

  lemma DecodeTwo(w: char, x: char, k: nat)
    requires InAlphabet(w) && InAlphabet(x)
    ensures DecodeGroups([w, x, '=', '='] + Padding(k))
            == if k == 0 then Ok([Byte0(DecodeChar(w), DecodeChar(x))]) else Err
  {
  }

  lemma DecodeFullGroup(a: Byte, b: Byte, c: Byte, rest: string)
    ensures DecodeGroups(EncodeGroup(a, b, c) + rest)
            == match DecodeGroups(rest) case Ok(data) => Ok([a, b, c] + data) case Err => Err
  {
    var s := EncodeGroup(a, b, c);
    GroupRoundTrip(a, b, c);
    assert s == [s[0], s[1], s[2], s[3]];
    DecodeFour(s[0], s[1], s[2], s[3], rest);
  }

  lemma DecodeOneByte(a: Byte, k: nat)
    ensures DecodeGroups(EncodeOne(a) + Padding(k)) == if k == 0 then Ok([a]) else Err
  {
    DecodeTwo(EncodeChar(a / 4), EncodeChar(a % 4 * 16), k);
    assert Byte0(a / 4, a % 4 * 16) == a;
  }

  lemma DecodeTwoBytes(a: Byte, b: Byte, k: nat)
    ensures DecodeGroups(EncodeTwo(a, b) + Padding(k)) == if k == 0 then Ok([a, b]) else Err
  {
    DecodeThree(EncodeChar(a / 4), EncodeChar(a % 4 * 16 + b / 16), EncodeChar(b % 16 * 4), k);
    assert Byte0(a / 4, a % 4 * 16 + b / 16) == a;
    assert Byte1(a % 4 * 16 + b / 16, b % 16 * 4) == b;
  }

  /** The strict decoder reads an encoding, and rejects it once a single '=' is
      added. */
  lemma {:induction false} DecodePadded(data: seq<Byte>, k: nat)
    ensures DecodeGroups(BytesToBase64(data) + Padding(k)) == if k == 0 then Ok(data) else Err
  {
    if data == [] {
      assert BytesToBase64(data) + Padding(k) == Padding(k);
    } else if |data| == 1 {
      DecodeOneByte(data[0], k);
    } else if |data| == 2 {
      DecodeTwoBytes(data[0], data[1], k);
    } else {
      DecodePadded(data[3..], k);
      var group := EncodeGroup(data[0], data[1], data[2]);
      DecodeFullGroup(data[0], data[1], data[2], BytesToBase64(data[3..]) + Padding(k));
      assert BytesToBase64(data) + Padding(k) == group + (BytesToBase64(data[3..]) + Padding(k));
      assert data == [data[0], data[1], data[2]] + data[3..];
    }
  }

  predicate NoBreaks(s: string) {
    forall i | 0 <= i < |s| :: s[i] != '\n' && s[i] != '\r'
  }

  lemma {:induction false} DropNoBreaks(s: string)
    requires NoBreaks(s)
    ensures DropBreaks(s) == s
  {
    if s != "" {
      DropNoBreaks(s[1..]);
    }
  }

  lemma EncodedIsNoBreak(d: int)
    requires 0 <= d < 64
    ensures EncodeChar(d) != '\n' && EncodeChar(d) != '\r'
  {
  }

  lemma GroupHasNoBreaks(a: Byte, b: Byte, c: Byte)
    ensures NoBreaks(EncodeGroup(a, b, c)) && NoBreaks(EncodeTwo(a, b)) && NoBreaks(EncodeOne(a))
  {
    EncodedIsNoBreak(a / 4);
    EncodedIsNoBreak(a % 4 * 16 + b / 16);
    EncodedIsNoBreak(b % 16 * 4 + c / 64);
    EncodedIsNoBreak(c % 64);
    EncodedIsNoBreak(b % 16 * 4);
    EncodedIsNoBreak(a % 4 * 16);
  }

  lemma {:induction false} EncodingHasNoBreaks(data: seq<Byte>)
    ensures NoBreaks(BytesToBase64(data))
  {
    if |data| > 2 {
      EncodingHasNoBreaks(data[3..]);
      GroupHasNoBreaks(data[0], data[1], data[2]);
    } else if |data| == 2 {
      GroupHasNoBreaks(data[0], data[1], 0);
    } else if |data| == 1 {
      GroupHasNoBreaks(data[0], 0, 0);
    }
  }

  predicate IsBreak(c: char) {
    c == '\n' || c == '\r'
  }

  lemma {:induction false} DropConcat(a: string, b: string)
    ensures DropBreaks(a + b) == DropBreaks(a) + DropBreaks(b)
  {
    if a == "" {
      assert a + b == b;
    } else {
      assert (a + b)[1..] == a[1..] + b;
      DropConcat(a[1..], b);
    }
  }

  lemma BreakIsDropped(a: string, c: char, b: string)
    requires IsBreak(c)
    ensures DropBreaks(a + [c] + b) == DropBreaks(a + b)
  {
    DropConcat(a + [c], b);
    DropConcat(a, [c]);
    DropConcat(a, b);
  }

  /** A line break anywhere makes no difference to the strict decoder. */
  lemma BreakIsSkipped(a: string, c: char, b: string)
    requires IsBreak(c)
    ensures DecodeString(a + [c] + b) == DecodeString(a + b)
  {
    var broken, whole := DropBreaks(a + [c] + b), DropBreaks(a + b);
    BreakIsDropped(a, c, b);
    assert broken == whole;
  }

  /** `t` is `s` with line breaks put in, anywhere and in any number. */
  predicate WithBreaks(s: string, t: string) {
    if t == "" then s == ""
    else (IsBreak(t[0]) && WithBreaks(s, t[1..])) || (s != "" && s[0] == t[0] && WithBreaks(s[1..], t[1..]))
  }

  lemma {:induction false} DropUndoesBreaks(s: string, t: string)
    requires WithBreaks(s, t) && NoBreaks(s)
    ensures DropBreaks(t) == s
    decreases |t|
  {
    if t != "" {
      if IsBreak(t[0]) {
        assert WithBreaks(s, t[1..]);
        DropUndoesBreaks(s, t[1..]);
      } else {
        DropUndoesBreaks(s[1..], t[1..]);
        assert s == [s[0]] + s[1..];
      }
    }
  }

  lemma {:induction false} WithoutBreaks(s: string)
    ensures WithBreaks(s, s)
  {
    if s != "" {
      WithoutBreaks(s[1..]);
    }
  }

  lemma DecodeBroken(data: seq<Byte>, text: string, k: nat)
    requires WithBreaks(BytesToBase64(data), text)
    ensures DecodeString(text + Padding(k)) == if k == 0 then Ok(data) else Err
  {
    EncodingHasNoBreaks(data);
    DropUndoesBreaks(BytesToBase64(data), text);
    DropConcat(text, Padding(k));
    DropNoBreaks(Padding(k));
    DecodePadded(data, k);
  }

  /** Base64ToBytes undoes BytesToBase64, wherever line breaks are put into the
      encoding and however much surplus padding follows. */
  lemma {:induction false} DecodeUndoesEncode(data: seq<Byte>, text: string, k: nat)
    requires WithBreaks(BytesToBase64(data), text)
    ensures Base64ToBytes(text + Padding(k)) == Ok(data)
  {
    var s := text + Padding(k);
    DecodeBroken(data, text, k);
    if k > 0 {
      DecodeUndoesEncode(data, text, k - 1);
      assert s[|s| - 1] == '=';
      assert s[..|s| - 1] == text + Padding(k - 1);
    }
  }

  /** In particular the encoding as it is. */
  lemma DecodeUndoesPlainEncode(data: seq<Byte>, k: nat)
    ensures Base64ToBytes(BytesToBase64(data) + Padding(k)) == Ok(data)
  {
    WithoutBreaks(BytesToBase64(data));
    DecodeUndoesEncode(data, BytesToBase64(data), k);
  }

  // --------------------------------------------------- the standard's words

  /** Table 1 of RFC 4648, section 4. */
  const ALPHABET := "ABCDEFGHIJKLMNOPQRSTUVWXYZ" + "abcdefghijklmnopqrstuvwxyz" + "0123456789" + "+/"

  lemma AlphabetIsTable(d: int)
    requires 0 <= d < 64
    ensures |ALPHABET| == 64 && EncodeChar(d) == ALPHABET[d] && DecodeChar(ALPHABET[d]) == d
  {
    var upper, lower, digits := "ABCDEFGHIJKLMNOPQRSTUVWXYZ", "abcdefghijklmnopqrstuvwxyz", "0123456789";
    assert forall i | 0 <= i < 26 :: upper[i] == 'A' + i as char;
    assert forall i | 0 <= i < 26 :: lower[i] == 'a' + i as char;
    assert forall i | 0 <= i < 10 :: digits[i] == '0' + i as char;
    assert ALPHABET == upper + lower + digits + "+/";
  }

  lemma AlphabetExactly(c: char)
    ensures InAlphabet(c) <==> c in ALPHABET
  {
    AlphabetIsTable(0);
    if InAlphabet(c) {
      AlphabetIsTable(DecodeChar(c));
      assert EncodeChar(DecodeChar(c)) == c;
    }
    if i :| 0 <= i < |ALPHABET| && ALPHABET[i] == c {
      AlphabetIsTable(i);
    }
  }

  lemma SameDigits(p: int, q: int, r: int, u: int, p': int, q': int, r': int, u': int)
    requires 0 <= p < 64 && 0 <= q < 64 && 0 <= r < 64 && 0 <= u < 64
    requires 0 <= p' < 64 && 0 <= q' < 64 && 0 <= r' < 64 && 0 <= u' < 64
    requires 262144 * p + 4096 * q + 64 * r + u == 262144 * p' + 4096 * q' + 64 * r' + u'
    ensures p == p' && q == q' && r == r' && u == u'
  {
  }

  lemma SameBytes(a: int, b: int, c: int, a': int, b': int, c': int)
    requires 0 <= a < 256 && 0 <= b < 256 && 0 <= c < 256 && 0 <= a' < 256 && 0 <= b' < 256 && 0 <= c' < 256
    requires 65536 * a + 256 * b + c == 65536 * a' + 256 * b' + c'
    ensures a == a' && b == b' && c == c'
  {
  }

  /** The digits as characters. */
  function Letters(p: int, q: int, r: int, u: int): (s: string)
    requires 0 <= p < 64 && 0 <= q < 64 && 0 <= r < 64 && 0 <= u < 64
    ensures |s| == 4 && InAlphabet(s[0]) && InAlphabet(s[1]) && InAlphabet(s[2]) && InAlphabet(s[3])
    ensures DecodeChar(s[0]) == p && DecodeChar(s[1]) == q && DecodeChar(s[2]) == r && DecodeChar(s[3]) == u
  {
    AlphabetIsTable(p);
    AlphabetIsTable(q);
    AlphabetIsTable(r);
    AlphabetIsTable(u);
    [ALPHABET[p], ALPHABET[q], ALPHABET[r], ALPHABET[u]]
  }

  /** Three bytes and four digits to the base 64 that stand for the same 24-bit
      number, the most significant first, are written as each other ... */
  lemma GroupIsNumber(a: Byte, b: Byte, c: Byte, p: int, q: int, r: int, u: int)
    requires 0 <= p < 64 && 0 <= q < 64 && 0 <= r < 64 && 0 <= u < 64
    requires 65536 * a + 256 * b + c == 262144 * p + 4096 * q + 64 * r + u
    ensures EncodeGroup(a, b, c) == Letters(p, q, r, u)
  {
    SameDigits(p, q, r, u, a / 4, a % 4 * 16 + b / 16, b % 16 * 4 + c / 64, c % 64);
    AlphabetIsTable(p);
    AlphabetIsTable(q);
    AlphabetIsTable(r);
    AlphabetIsTable(u);
  }

  /** ... and read as each other; with padding, only the first bytes are. */
  lemma NumberIsGroup(a: Byte, b: Byte, c: Byte, p: int, q: int, r: int, u: int)
    requires 0 <= p < 64 && 0 <= q < 64 && 0 <= r < 64 && 0 <= u < 64
    requires 65536 * a + 256 * b + c == 262144 * p + 4096 * q + 64 * r + u
    ensures var s := Letters(p, q, r, u);
            && DecodeGroups(s) == Ok([a, b, c])
            && DecodeGroups(s[..3] + "=") == Ok([a, b])
            && DecodeGroups(s[..2] + "==") == Ok([a])
  {
    SameBytes(a, b, c, Byte0(p, q), Byte1(q, r), Byte2(r, u));
    var s := Letters(p, q, r, u);
    DecodeFour(s[0], s[1], s[2], s[3], "");
    DecodeThree(s[0], s[1], s[2], 0);
    DecodeTwo(s[0], s[1], 0);
    assert s == [s[0], s[1], s[2], s[3]] + "";
    assert s[..3] + "=" == [s[0], s[1], s[2], '='] + Padding(0);
    assert s[..2] + "==" == [s[0], s[1], '=', '='] + Padding(0);
  }

  /** Bytes that are missing from a group count as zero and give padding. */
  lemma ShortGroups(a: Byte, b: Byte)
    ensures EncodeTwo(a, b) == EncodeGroup(a, b, 0)[..3] + "="
    ensures EncodeOne(a) == EncodeGroup(a, 0, 0)[..2] + "=="
  {
  }

  /** Whole groups of four, all from the alphabet but for one or two '=' at the end. */
  predicate WellFormed(s: string, pads: nat) {
    && |s| % 4 == 0 && pads <= 2 && pads <= |s|
    && (forall i | 0 <= i < |s| - pads :: InAlphabet(s[i]))
    && (forall i | |s| - pads <= i < |s| :: s[i] == '=')
  }

  predicate SomeWellFormed(s: string) {
    WellFormed(s, 0) || WellFormed(s, 1) || WellFormed(s, 2)
  }

  /** The decoder takes text, breaks aside, exactly if it is well-formed, and one that
      is decodes group by group. */
  lemma {:induction false} AcceptsExactly(s: string)
    ensures DecodeGroups(s).Ok? <==> SomeWellFormed(s)
    ensures |s| > 4 && DecodeGroups(s).Ok? ==>
              && DecodeGroups(s[..4]).Ok? && DecodeGroups(s[4..]).Ok?
              && DecodeGroups(s).data == DecodeGroups(s[..4]).data + DecodeGroups(s[4..]).data
  {
    if |s| == 4 {
      assert s[4..] == "";
    } else if |s| > 4 {
      AcceptsExactly(s[4..]);
      LongerIsWellFormed(s);
      LongerDecodes(s);
    }
  }

  lemma LongerIsWellFormed(s: string)
    requires |s| > 4
    ensures SomeWellFormed(s) <==> (forall i | 0 <= i < 4 :: InAlphabet(s[i])) && SomeWellFormed(s[4..])
  {
    assert forall i | 4 <= i < |s| :: s[i] == s[4..][i - 4];
  }

  lemma BrokenGroupFails(s: string, i: nat)
    requires |s| > 4 && i < 4 && !InAlphabet(s[i])
    ensures DecodeGroups(s).Err?
  {
    assert i == 0 || i == 1 || i == 2 || i == 3;
  }

  lemma WholeGroupDecodes(s: string)
    requires |s| > 4 && InAlphabet(s[0]) && InAlphabet(s[1]) && InAlphabet(s[2]) && InAlphabet(s[3])
    ensures DecodeGroups(s[..4]).Ok?
    ensures DecodeGroups(s) == match DecodeGroups(s[4..])
                               case Ok(data) => Ok(DecodeGroups(s[..4]).data + data)
                               case Err => Err
  {
    DecodeFour(s[0], s[1], s[2], s[3], s[4..]);
    DecodeFour(s[0], s[1], s[2], s[3], "");
    assert s == [s[0], s[1], s[2], s[3]] + s[4..];
    assert s[..4] == [s[0], s[1], s[2], s[3]] + "";
  }

  lemma LongerDecodes(s: string)
    requires |s| > 4
    ensures DecodeGroups(s).Ok? <==> (forall i | 0 <= i < 4 :: InAlphabet(s[i])) && DecodeGroups(s[4..]).Ok?
    ensures DecodeGroups(s).Ok? ==>
              DecodeGroups(s[..4]).Ok? && DecodeGroups(s).data == DecodeGroups(s[..4]).data + DecodeGroups(s[4..]).data
  {
    if i :| 0 <= i < 4 && !InAlphabet(s[i]) {
      BrokenGroupFails(s, i);
    } else {
      WholeGroupDecodes(s);
    }
  }

  /** `s` without its last `k` characters, all of which are '='. */
  predicate Strips(s: string, k: nat) {
    k <= |s| && forall i | |s| - k <= i < |s| :: s[i] == '='
  }

  /** What the strict decoder makes of `s` without its last `k` characters. */
  function Stripped(s: string, k: nat): Result
    requires k <= |s|
  {
    DecodeString(s[..|s| - k])
  }

  lemma StrippedShifts(s: string, k: nat)
    requires 0 < k <= |s|
    ensures Stripped(s[..|s| - 1], k - 1) == Stripped(s, k)
  {
    assert s[..|s| - 1][..|s| - k] == s[..|s| - k];
  }

  lemma StripsShifts(s: string, k: nat)
    requires s != "" && s[|s| - 1] == '=' && 0 < k <= |s|
    ensures Strips(s, k) <==> Strips(s[..|s| - 1], k - 1)
  {
    var t := s[..|s| - 1];
    if Strips(t, k - 1) {
      assert forall i | 0 <= i < |t| :: s[i] == t[i];
    }
  }

  /** On every input the result is that of the strict decoder on the longest
      text, with only trailing '=' removed, that it accepts ... */
  lemma {:induction false} DecodesLongestAccepted(s: string) returns (k: nat)
    ensures Strips(s, k) && Base64ToBytes(s) == Stripped(s, k)
    ensures forall j: nat | j < k :: Stripped(s, j).Err?
    ensures Base64ToBytes(s).Err? ==> k == |s| || s[|s| - 1 - k] != '='
  {
    assert s[..|s|] == s;
    k := 0;
    if DecodeString(s).Err? && s != "" && s[|s| - 1] == '=' {
      var m := DecodesLongestAccepted(s[..|s| - 1]);
      k := m + 1;
      StrippedShifts(s, k);
      StripsShifts(s, k);
      forall j: nat | j < k ensures Stripped(s, j).Err? {
        if j > 0 {
          StrippedShifts(s, j);
        }
      }
    }
  }

  /** ... and an error exactly when there is none. */
  lemma ErrorExactly(s: string)
    ensures Base64ToBytes(s).Err? <==> forall j: nat | Strips(s, j) :: Stripped(s, j).Err?
  {
    var k := DecodesLongestAccepted(s);
    if Base64ToBytes(s).Err? {
      forall j: nat | Strips(s, j) ensures Stripped(s, j).Err? {
        assert j <= k;
      }
    }
  }
}
