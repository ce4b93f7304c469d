/** Unpadded base64url (sections 3.2 and 5 of RFC 4648), as the cursor encoder reads and writes it. */
module Base64Url {
  import opened Wrappers

  type byte = n: int | 0 <= n < 256

  /** The character of a 6-bit digit. */
  function Digit(n: int): char
    requires 0 <= n < 64
  {
    if n < 26 then (n + 65) as char
    else if n < 52 then (n + 71) as char
    else if n < 62 then (n - 4) as char
    else if n == 62 then '-' else '_'
  }

  /** The 6-bit digit of a character. The decoder first maps '-' and '_' to '+' and '/', so it reads
      both alphabets; any other character has no digit. */
  function DigitOf(c: char): Option<int> {
    if 'A' <= c <= 'Z' then Some(c as int - 65)
    else if 'a' <= c <= 'z' then Some(c as int - 71)
    else if '0' <= c <= '9' then Some(c as int + 4)
    else if c == '-' || c == '+' then Some(62)
    else if c == '_' || c == '/' then Some(63)
    else None
  }

  /** The digits of one byte, two bytes and three bytes. */
  function Single(a: byte): (s: string)
    ensures |s| == 2
  {
    [Digit(a / 4), Digit(a % 4 * 16)]
  }

  function Pair(a: byte, b: byte): (s: string)
    ensures |s| == 3
  {
    [Digit(a / 4), Digit(a % 4 * 16 + b / 16), Digit(b % 16 * 4)]
  }

  function Group(a: byte, b: byte, c: byte): (s: string)
    ensures |s| == 4
  {
    [Digit(a / 4), Digit(a % 4 * 16 + b / 16), Digit(b % 16 * 4 + c / 64), Digit(c % 64)]
  }

  /** `base64.urlsafe_b64encode`: groups of three bytes, the last one padded with '='. */
  function Padded(data: seq<byte>): string {
    if data == [] then ""
    else if |data| == 1 then Single(data[0]) + "=="
    else if |data| == 2 then Pair(data[0], data[1]) + "="
    else Group(data[0], data[1], data[2]) + Padded(data[3..])
  }

  function StripRight(s: string, c: char): string {
    if s != [] && s[|s| - 1] == c then StripRight(s[..|s| - 1], c) else s
  }

  /** hmac.py, `_base64_encode`. */
  function Encode(data: seq<byte>): string {
    StripRight(Padded(data), '=')
  }

  datatype Base64Error = NotAscii | IncorrectPadding | OneDigitLeft

  predicate IsAscii(s: string) {
    forall i | 0 <= i < |s| :: s[i] as int < 128
  }

  /** The lenient decoder of CPython's binascii: characters outside the alphabet are skipped, a
      completed padding ends the text, and left-over digits are an error. `quad` counts the digits
      read of the current group, `left` holds their unread low bits, `pads` the '=' just read. */
  function Scan(text: string, quad: int, left: int, pads: nat): Result<seq<byte>, Base64Error>
    requires 0 <= quad < 4 && 0 <= left
    requires left < (if quad == 0 then 1 else if quad == 1 then 64 else if quad == 2 then 16 else 4)
  {
    if text == "" then
      if quad == 0 then Ok([]) else if quad == 1 then Err(OneDigitLeft) else Err(IncorrectPadding)
    else if text[0] == '=' then
      if quad >= 2 && quad + pads + 1 >= 4 then Ok([])
      else Scan(text[1..], quad, left, if quad >= 2 then pads + 1 else pads)
    else
      match DigitOf(text[0])
      case None => Scan(text[1..], quad, left, pads)
      case Some(v) =>
        if quad == 0 then Scan(text[1..], 1, v, 0)
        else
          var (b, rest) :=
            if quad == 1 then (left * 4 + v / 16, v % 16)
            else if quad == 2 then (left * 16 + v / 4, v % 4)
            else (left * 64 + v, 0);
          var tail :- Scan(text[1..], (quad + 1) % 4, rest, 0);
          Ok([b] + tail)
  }

  /** hmac.py, `_base64_decode`: pad to a multiple of four, then decode; a text that is not ASCII is refused. */
  function Decode(text: string): Result<seq<byte>, Base64Error> {
    if !IsAscii(text) then Err(NotAscii)
    else Scan(text + seq(-|text| % 4, _ => '='), 0, 0, 0)
  }

  lemma DigitRoundTrip(n: int)
    requires 0 <= n < 64
    ensures DigitOf(Digit(n)) == Some(n) && Digit(n) != '=' && Digit(n) != '.' && Digit(n) as int < 128
  {
  }

  lemma {:induction false} ScanFirst(n: int, text: string)
    requires 0 <= n < 64
    ensures Scan([Digit(n)] + text, 0, 0, 0) == Scan(text, 1, n, 0)
  {
    DigitRoundTrip(n);
    assert ([Digit(n)] + text)[1..] == text;
  }

  /** A digit that completes byte `b` and leaves the low bits `rest` over. */
  lemma {:induction false} ScanNext(n: int, text: string, quad: int, left: int, b: byte, rest: int, tail: seq<byte>)
    requires 0 <= n < 64
    requires quad == 1 ==> 0 <= left < 64 && b == left * 4 + n / 16 && rest == n % 16
    requires quad == 2 ==> 0 <= left < 16 && b == left * 16 + n / 4 && rest == n % 4
    requires quad == 3 ==> 0 <= left < 4 && b == left * 64 + n && rest == 0
    requires 1 <= quad <= 3 && Scan(text, (quad + 1) % 4, rest, 0) == Ok(tail)
    ensures Scan([Digit(n)] + text, quad, left, 0) == Ok([b] + tail)
  {
    DigitRoundTrip(n);
    assert ([Digit(n)] + text)[1..] == text;
  }

  lemma {:induction false} ScanGroup(a: byte, b: byte, c: byte, text: string, tail: seq<byte>)
    requires Scan(text, 0, 0, 0) == Ok(tail)
    ensures Scan(Group(a, b, c) + text, 0, 0, 0) == Ok([a, b, c] + tail)
  {
    hide Scan;
    var w := [Digit(c % 64)] + text;
    var x := [Digit(b % 16 * 4 + c / 64)] + w;
    var y := [Digit(a % 4 * 16 + b / 16)] + x;
    ScanNext(c % 64, text, 3, c / 64, c, 0, tail);
    ScanNext(b % 16 * 4 + c / 64, w, 2, b / 16, b, c / 64, [c] + tail);
    ScanNext(a % 4 * 16 + b / 16, x, 1, a / 4, a, b / 16, [b] + ([c] + tail));
    ScanFirst(a / 4, y);
    assert Group(a, b, c) + text == [Digit(a / 4)] + y;
    assert [a] + ([b] + ([c] + tail)) == [a, b, c] + tail;
  }

  lemma {:induction false} ScanPair(a: byte, b: byte)
    ensures Scan(Pair(a, b) + "=", 0, 0, 0) == Ok([a, b])
  {
    var x := [Digit(b % 16 * 4)] + "=";
    var y := [Digit(a % 4 * 16 + b / 16)] + x;
    ScanNext(b % 16 * 4, "=", 2, b / 16, b, 0, []);
    ScanNext(a % 4 * 16 + b / 16, x, 1, a / 4, a, b / 16, [b] + []);
    ScanFirst(a / 4, y);
    assert Pair(a, b) + "=" == [Digit(a / 4)] + y && [a] + ([b] + []) == [a, b];
  }

  lemma {:induction false} ScanSingle(a: byte)
    ensures Scan(Single(a) + "==", 0, 0, 0) == Ok([a])
  {
    assert "=="[1..] == "=";
    var x := [Digit(a % 4 * 16)] + "==";
    ScanNext(a % 4 * 16, "==", 1, a / 4, a, 0, []);
    ScanFirst(a / 4, x);
    assert Single(a) + "==" == [Digit(a / 4)] + x && [a] + [] == [a];
  }

  lemma {:induction false} ScanPadded(data: seq<byte>)
    ensures Scan(Padded(data), 0, 0, 0) == Ok(data)
  {
    hide Scan, Single, Pair, Group;
    if data == [] {
      ScanNothing();
    } else if |data| == 1 {
      ScanSingle(data[0]);
      assert data == [data[0]];
    } else if |data| == 2 {
      ScanPair(data[0], data[1]);
      assert data == [data[0], data[1]];
    } else {
      ScanPadded(data[3..]);
      ScanGroup(data[0], data[1], data[2], Padded(data[3..]), data[3..]);
      assert data == [data[0], data[1], data[2]] + data[3..];
    }
  }

  lemma ScanNothing()
    ensures Scan("", 0, 0, 0) == Ok([])
  {
  }

  ghost predicate Plain(s: string) {
    forall i | 0 <= i < |s| :: s[i] != '=' && s[i] != '.' && s[i] as int < 128
  }

  /** The digits of a byte string without padding: what is left of `Padded` when the '=' go. */
  ghost function Digits(data: seq<byte>): string {
    if data == [] then ""
    else if |data| == 1 then Single(data[0])
    else if |data| == 2 then Pair(data[0], data[1])
    else Group(data[0], data[1], data[2]) + Digits(data[3..])
  }

  ghost function Pads(n: int): string {
    seq(-n % 4, _ => '=')
  }

  lemma {:induction false} DigitsLength(data: seq<byte>)
    ensures |Digits(data)| == |data| / 3 * 4 + (if |data| % 3 == 0 then 0 else |data| % 3 + 1)
  {
    if |data| >= 3 {
      DigitsLength(data[3..]);
    }
  }

  lemma PadsRepeat(n: nat)
    ensures Pads(n + 4) == Pads(n)
  {
  }

  lemma {:induction false} DigitsArePadded(data: seq<byte>)
    ensures Padded(data) == Digits(data) + Pads(|Digits(data)|)
  {
    hide Single, Pair, Group;
    if |data| == 1 {
      assert Pads(2) == "==";
    } else if |data| == 2 {
      assert Pads(3) == "=";
    } else if |data| >= 3 {
      hide Pads;
      DigitsArePadded(data[3..]);
      PadsRepeat(|Digits(data[3..])|);
    }
  }

  lemma GroupPlain(a: byte, b: byte, c: byte)
    ensures Plain(Single(a)) && Plain(Pair(a, b)) && Plain(Group(a, b, c))
  {
    hide Digit, DigitOf;
    DigitRoundTrip(a / 4);
    DigitRoundTrip(a % 4 * 16);
    DigitRoundTrip(a % 4 * 16 + b / 16);
    DigitRoundTrip(b % 16 * 4);
    DigitRoundTrip(b % 16 * 4 + c / 64);
    DigitRoundTrip(c % 64);
  }

  lemma {:induction false} DigitsPlain(data: seq<byte>)
    ensures Plain(Digits(data))
  {
    hide Single, Pair, Group;
    if |data| >= 3 {
      DigitsPlain(data[3..]);
      GroupPlain(data[0], data[1], data[2]);
    } else if |data| == 2 {
      GroupPlain(data[0], data[1], 0);
    } else if |data| == 1 {
      GroupPlain(data[0], 0, 0);
    }
  }

  /** Stripping leaves the digits, and padding them again gives the padded text back. */
  lemma {:induction false} EncodeShape(data: seq<byte>)
    ensures Encode(data) == Digits(data)
    ensures Padded(data) == Encode(data) + seq(-|Encode(data)| % 4, _ => '=')
    ensures |Encode(data)| == |data| / 3 * 4 + (if |data| % 3 == 0 then 0 else |data| % 3 + 1)
    ensures Plain(Encode(data))
  {
    DigitsLength(data);
    DigitsArePadded(data);
    DigitsPlain(data);
    var s := Digits(data);
    StripPads(s, -|s| % 4);
    assert Pads(|s|) == seq(-|s| % 4, _ => '=');
  }

  lemma {:induction false} StripPads(s: string, n: nat)
    requires s == [] || s[|s| - 1] != '='
    ensures StripRight(s + seq(n, _ => '='), '=') == s
  {
    var t := s + seq(n, _ => '=');
    if n == 0 {
      assert t == s;
    } else {
      assert t[..|t| - 1] == s + seq(n - 1, _ => '=');
      StripPads(s, n - 1);
    }
  }

  /** For every byte string: never length 1 mod 4, no '.' and no '=', and decoding returns the bytes. */
  lemma RoundTrip(data: seq<byte>)
    ensures Decode(Encode(data)) == Ok(data)
    ensures |Encode(data)| % 4 != 1
    ensures '.' !in Encode(data) && '=' !in Encode(data)
  {
    hide Encode, Scan, Padded, Digits;
    EncodeShape(data);
    ScanPadded(data);
  }

  /** A character of the URL-safe alphabet, section 5 of RFC 4648. */
  predicate UrlSafe(c: char) {
    'A' <= c <= 'Z' || 'a' <= c <= 'z' || '0' <= c <= '9' || c == '-' || c == '_'
  }

  lemma GroupUrlSafe(a: byte, b: byte, c: byte)
    ensures forall d | d in Single(a) + Pair(a, b) + Group(a, b, c) :: UrlSafe(d)
  {
  }

  lemma {:induction false} DigitsUrlSafe(data: seq<byte>)
    ensures forall d | d in Digits(data) :: UrlSafe(d)
  {
    hide Single, Pair, Group;
    if |data| >= 3 {
      DigitsUrlSafe(data[3..]);
      GroupUrlSafe(data[0], data[1], data[2]);
    } else if |data| == 2 {
      GroupUrlSafe(data[0], data[1], 0);
    } else if |data| == 1 {
      GroupUrlSafe(data[0], 0, 0);
    }
  }

  /** The stripped text uses the URL-safe alphabet alone. */
  lemma EncodeUrlSafe(data: seq<byte>)
    ensures forall c | c in Encode(data) :: UrlSafe(c)
  {
    EncodeShape(data);
    DigitsUrlSafe(data);
  }

  // ----- Texts that nobody encoded -----

  /** The state of the decoder is one it can be in. */
  predicate InScan(quad: int, left: int) {
    && 0 <= quad < 4 && 0 <= left
    && left < (if quad == 0 then 1 else if quad == 1 then 64 else if quad == 2 then 16 else 4)
  }

  lemma PadsEnd(quad: int, left: int)
    requires InScan(quad, left)
    ensures Scan(seq(-quad % 4, _ => '='), quad, left, 0).Ok? <==> quad != 1
  {
    var pads := seq(-quad % 4, _ => '=');
    if quad == 1 {
      assert pads == "===";
      LoneDigitFails(left);
    } else if quad == 2 {
      assert pads == "==" && "=="[1..] == "=";
    } else if quad == 3 {
      assert pads == "=";
    }
  }

  lemma LoneDigitFails(left: int)
    requires InScan(1, left)
    ensures Scan("===", 1, left, 0).Err?
  {
    assert "=="[1..] == "=" && "==="[1..] == "==" && "="[1..] == "";
    assert Scan("=", 1, left, 0) == Scan("", 1, left, 0);
    assert Scan("==", 1, left, 0) == Scan("=", 1, left, 0);
  }

  /** A digit moves the decoder on within its group. */
  lemma DigitStep(text: string, quad: int, left: int) returns (left': int)
    requires InScan(quad, left) && text != "" && DigitOf(text[0]).Some?
    ensures InScan((quad + 1) % 4, left')
    ensures Scan(text, quad, left, 0).Ok? <==> Scan(text[1..], (quad + 1) % 4, left', 0).Ok?
  {
    var v := DigitOf(text[0]).value;
    left' := if quad == 0 then v else if quad == 1 then v % 16 else if quad == 2 then v % 4 else 0;
    assert InScan((quad + 1) % 4, left');
    assert text[0] != '=';
  }

  lemma {:induction false} DigitsScan(text: string, quad: int, left: int)
    requires InScan(quad, left) && forall i | 0 <= i < |text| :: DigitOf(text[i]).Some?
    ensures Scan(text + seq(-(quad + |text|) % 4, _ => '='), quad, left, 0).Ok? <==> (quad + |text|) % 4 != 1
    decreases |text|
  {
    hide Scan, DigitOf;
    var pads := seq(-(quad + |text|) % 4, _ => '=');
    if text == "" {
      assert text + pads == pads;
      PadsEnd(quad, left);
    } else {
      var left' := DigitStep(text + pads, quad, left);
      DigitsScan(text[1..], (quad + 1) % 4, left');
      assert (text + pads)[1..] == text[1..] + seq(-((quad + 1) % 4 + |text[1..]|) % 4, _ => '=');
    }
  }

  /** A text of digits alone, of either alphabet, decodes exactly if its length is not 1 mod 4. */
  lemma DigitsDecodeExactlyWhen(text: string)
    requires forall i | 0 <= i < |text| :: UrlSafe(text[i]) || text[i] == '+' || text[i] == '/'
    ensures Decode(text).Ok? <==> |text| % 4 != 1
  {
    DigitsScan(text, 0, 0);
  }

  /** The decoder skips characters outside the alphabet, wherever they stand. */
  lemma {:induction false} ForeignSkipped(a: string, c: char, b: string, quad: int, left: int, pads: nat)
    requires InScan(quad, left) && !UrlSafe(c) && c != '+' && c != '/' && c != '='
    ensures Scan(a + [c] + b, quad, left, pads) == Scan(a + b, quad, left, pads)
    decreases |a|
  {
    if a == "" {
      assert (a + [c] + b)[1..] == b && a + b == b;
    } else {
      assert (a + [c] + b)[1..] == a[1..] + [c] + b && (a + b)[1..] == a[1..] + b;
      if a[0] == '=' {
        ForeignSkipped(a[1..], c, b, quad, left, if quad >= 2 then pads + 1 else pads);
      } else if DigitOf(a[0]).None? {
        ForeignSkipped(a[1..], c, b, quad, left, pads);
      } else {
        var v := DigitOf(a[0]).value;
        var left' := if quad == 0 then v else if quad == 1 then v % 16 else if quad == 2 then v % 4 else 0;
        ForeignSkipped(a[1..], c, b, (quad + 1) % 4, left', 0);
      }
    }
  }

  /** A text with a character that is not ASCII is refused. */
  lemma NotAsciiRefused(text: string, i: nat)
    requires i < |text| && text[i] as int >= 128
    ensures Decode(text).Err?
  {
  }

  /** Complete padding ends the text, whatever follows; one "=" where two are due is skipped before a digit. */
  lemma PaddingEnds(rest: string, left: int)
    ensures InScan(2, left) ==> Scan("==" + rest, 2, left, 0) == Ok([])
    ensures InScan(3, left) ==> Scan("=" + rest, 3, left, 0) == Ok([])
    ensures InScan(2, left) && rest != "" && DigitOf(rest[0]).Some? ==>
              Scan("=" + rest, 2, left, 0) == Scan(rest, 2, left, 0)
    ensures InScan(2, left) ==> Scan("=", 2, left, 0).Err?
  {
    assert ("==" + rest)[1..] == "=" + rest && ("=" + rest)[1..] == rest && "="[1..] == "";
  }
}
