/** Error sources of validation errors, and the JSON Pointers (RFC 6901) they carry. */
module JsonPointers {
  import opened Wrappers

  /** An element of a validation error location: a field name or a list index. */
  datatype Part = Field(name: string) | Index(n: int)

  function NatText(n: nat): string {
    if n < 10 then [(n + 48) as char] else NatText(n / 10) + [(n % 10 + 48) as char]
  }

  /** `str(part)`. */
  function Str(p: Part): string {
    match p
    case Field(name) => name
    case Index(n) => if n < 0 then "-" + NatText(-n) else NatText(n)
  }

  predicate Truthy(p: Part) {
    p != Field("") && p != Index(0)
  }

  /** `s.replace(c, sub)`. */
  function Replace(s: string, c: char, sub: string): string {
    if s == "" then "" else (if s[0] == c then sub else [s[0]]) + Replace(s[1..], c, sub)
  }

  function Escape(part: string): string {
    Replace(Replace(part, '~', "~0"), '/', "~1")
  }

  function Pointer(parts: seq<string>): string {
    if parts == [] then "" else "/" + Escape(parts[0]) + Pointer(parts[1..])
  }

  function Texts(loc: seq<Part>): seq<string> {
    seq(|loc|, i requires 0 <= i < |loc| => Str(loc[i]))
  }

  datatype ErrorSource = ErrorSource(pointer: Option<string>, parameter: Option<string>, header: Option<string>)

  /** handlers.py, `ErrorSourceBuilder.build`. */
  function Build(loc: seq<Part>): ErrorSource {
    if loc == [] then ErrorSource(None, None, None)
    else
      var second := if |loc| > 1 && Truthy(loc[1]) then Some(Str(loc[1])) else None;
      if loc[0] == Field("body") then
        var pointer := Pointer(Texts(loc[1..]));
        ErrorSource(Some(if pointer == "" then "/" else pointer), None, None)
      else if loc[0] == Field("query") then ErrorSource(None, second, None)
      else if loc[0] == Field("header") then ErrorSource(None, None, second)
      else ErrorSource(Some(Pointer(Texts(loc))), None, None)
  }

  // ----- Reading a pointer back -----

  /** Replace each occurrence of the two characters `x`, `y` by one. */
  function ReplacePair(s: string, x: char, y: char, sub: char): string {
    if s == "" then ""
    else if |s| >= 2 && s[0] == x && s[1] == y then [sub] + ReplacePair(s[2..], x, y, sub)
    else [s[0]] + ReplacePair(s[1..], x, y, sub)
  }

  /** Section 4 of RFC 6901: first "~1" to "/", then "~0" to "~". */
  function Unescape(token: string): string {
    ReplacePair(ReplacePair(token, '~', '1', '/'), '~', '0', '~')
  }

  /** `s.split("/")`. */
  function Split(s: string): (r: seq<string>)
    ensures r != []
  {
    if s == "" then [""]
    else if s[0] == '/' then [""] + Split(s[1..])
    else
      var rest := Split(s[1..]);
      [[s[0]] + rest[0]] + rest[1..]
  }

  /** The parts a pointer names. */
  function Parse(pointer: string): seq<string> {
    if pointer == "" then []
    else
      var tokens := Split(pointer[1..]);
      seq(|tokens|, i requires 0 <= i < |tokens| => Unescape(tokens[i]))
  }

  /** The pattern of an error source's pointer: segments of plain characters, "~0" and "~1", each after a "/". */
  predicate MatchesPattern(s: string) {
    s == "" || (s[0] == '/' && SegmentsMatch(s[1..]))
  }

  predicate SegmentsMatch(s: string) {
    if s == "" then true
    else if s[0] == '~' then |s| >= 2 && (s[1] == '0' || s[1] == '1') && SegmentsMatch(s[2..])
    else SegmentsMatch(s[1..])
  }

  lemma {:induction false} ReplaceConcat(s: string, t: string, c: char, sub: string)
    ensures Replace(s + t, c, sub) == Replace(s, c, sub) + Replace(t, c, sub)
  {
    if s == "" {
      assert s + t == t;
    } else {
      var head := if s[0] == c then sub else [s[0]];
      ReplaceConcat(s[1..], t, c, sub);
      assert (s + t)[1..] == s[1..] + t && (s + t)[0] == s[0];
      assert Replace(s + t, c, sub) == head + (Replace(s[1..], c, sub) + Replace(t, c, sub));
    }
  }

  /** Escaping goes character by character. */
  lemma EscapeStep(s: string)
    requires s != ""
    ensures Escape(s) == (if s[0] == '~' then "~0" else if s[0] == '/' then "~1" else [s[0]]) + Escape(s[1..])
  {
    var head := if s[0] == '~' then "~0" else [s[0]];
    ReplaceConcat(head, Replace(s[1..], '~', "~0"), '/', "~1");
    assert "~0"[1..] == "0" && "0"[1..] == "";
    assert Replace("~0", '/', "~1") == "~0";
    assert [s[0]][1..] == "";
  }

  lemma {:induction false} UnescapeEscape(s: string)
    ensures ReplacePair(Escape(s), '~', '1', '/') == Replace(s, '~', "~0")
    ensures ReplacePair(Replace(s, '~', "~0"), '~', '0', '~') == s
    ensures '/' !in Escape(s)
  {
    if s != "" {
      EscapeStep(s);
      UnescapeEscape(s[1..]);
      var (rest, half) := (Escape(s[1..]), Replace(s[1..], '~', "~0"));
      if s[0] == '~' {
        assert ("~0" + rest)[1..] == "0" + rest && ("0" + rest)[1..] == rest;
        assert ("~0" + half)[2..] == half;
      } else if s[0] == '/' {
        assert ("~1" + rest)[2..] == rest;
        assert ("/" + half)[1..] == half;
      } else {
        assert ([s[0]] + rest)[1..] == rest;
        assert ([s[0]] + half)[1..] == half;
      }
    }
  }

  lemma {:induction false} SplitFirst(token: string, rest: string)
    requires '/' !in token
    ensures Split(token) == [token]
    ensures Split(token + "/" + rest) == [token] + Split(rest)
  {
    var s := token + "/" + rest;
    if token == "" {
      assert s[1..] == rest;
    } else {
      assert token[0] in token && forall c | c in token[1..] :: c in token;
      SplitFirst(token[1..], rest);
      assert token == [token[0]] + token[1..];
      assert s[1..] == token[1..] + "/" + rest;
    }
  }

  /** Any non-empty list of parts is read back from its pointer. */
  lemma {:induction false} PointerRoundTrip(parts: seq<string>)
    requires parts != []
    ensures Parse(Pointer(parts)) == parts
  {
    var token := Escape(parts[0]);
    var rest := Pointer(parts[1..]);
    UnescapeEscape(parts[0]);
    if |parts| == 1 {
      ParseLast(token);
      assert Pointer(parts) == "/" + token;
    } else {
      PointerRoundTrip(parts[1..]);
      ParseFirst(token, rest);
      assert Pointer(parts) == "/" + token + rest;
    }
  }

  lemma {:induction false} ParseLast(token: string)
    requires '/' !in token
    ensures Parse("/" + token) == [Unescape(token)]
  {
    SplitFirst(token, "");
    assert ("/" + token)[1..] == token;
  }

  lemma {:induction false} ParseFirst(token: string, rest: string)
    requires '/' !in token && rest != "" && rest[0] == '/'
    ensures Parse("/" + token + rest) == [Unescape(token)] + Parse(rest)
  {
    hide Split, Unescape;
    var pointer, tail := "/" + token + rest, Split(rest[1..]);
    SplitFirst(token, rest[1..]);
    assert pointer[1..] == token + "/" + rest[1..];
    assert Split(pointer[1..]) == [token] + tail;
    assert Parse(rest) == seq(|tail|, i requires 0 <= i < |tail| => Unescape(tail[i]));
  }

  lemma {:induction false} EscapedMatches(s: string, rest: string)
    requires SegmentsMatch(rest)
    ensures SegmentsMatch(Escape(s) + rest)
  {
    hide SegmentsMatch;
    if s == "" {
      assert Escape(s) + rest == rest;
    } else {
      EscapeStep(s);
      EscapedMatches(s[1..], rest);
      HeadMatches(s[0], Escape(s[1..]) + rest);
      var head := if s[0] == '~' then "~0" else if s[0] == '/' then "~1" else [s[0]];
      assert Escape(s) + rest == head + (Escape(s[1..]) + rest);
    }
  }

  lemma {:induction false} HeadMatches(c: char, tail: string)
    requires SegmentsMatch(tail)
    ensures SegmentsMatch((if c == '~' then "~0" else if c == '/' then "~1" else [c]) + tail)
  {
    assert ("~0" + tail)[2..] == tail;
    assert ("~1" + tail)[2..] == tail;
    assert ([c] + tail)[1..] == tail;
  }

  lemma {:induction false} SlashMatches(s: string)
    requires SegmentsMatch(s)
    ensures MatchesPattern("/" + s) && SegmentsMatch("/" + s)
  {
    assert ("/" + s)[1..] == s;
  }

  lemma {:induction false} PointerMatches(parts: seq<string>)
    ensures MatchesPattern(Pointer(parts)) && SegmentsMatch(Pointer(parts))
  {
    if parts != [] {
      PointerMatches(parts[1..]);
      EscapedMatches(parts[0], Pointer(parts[1..]));
      SlashMatches(Escape(parts[0]) + Pointer(parts[1..]));
      assert Pointer(parts) == "/" + (Escape(parts[0]) + Pointer(parts[1..]));
    }
  }

  /** The parts a location points to. */
  function PartsOf(loc: seq<Part>): seq<string> {
    if loc != [] && loc[0] == Field("body") then Texts(loc[1..]) else Texts(loc)
  }

  /** A built pointer always fits the pattern, and it names exactly the location's parts unless there are
      none: the bare body is written "/", which names one empty part. */
  lemma BuiltPointers(loc: seq<Part>)
    ensures Build(loc).pointer.Some? <==> loc != [] && loc[0] != Field("query") && loc[0] != Field("header")
    ensures Build(loc).pointer.Some? ==> MatchesPattern(Build(loc).pointer.value)
    ensures Build(loc).pointer.Some? ==> (Parse(Build(loc).pointer.value) == PartsOf(loc) <==> PartsOf(loc) != [])
  {
    if Build(loc).pointer.Some? {
      PointerMatches(PartsOf(loc));
      if PartsOf(loc) != [] {
        PointerRoundTrip(PartsOf(loc));
      } else {
        assert Parse("/") == [""] by {
          assert "/"[1..] == "";
        }
      }
    }
  }

  /** The bare body and a body whose field is named "" get the same pointer. */
  lemma BareBodyCollides()
    ensures Build([Field("body")]) == Build([Field("body"), Field("")])
  {
    var bare, named := [Field("body")], [Field("body"), Field("")];
    assert Pointer([""]) == "/" by {
      assert [""][1..] == [] && Escape("") == "";
    }
    assert Texts(bare[1..]) == [] && Texts(named[1..]) == [""];
    assert Build(bare).pointer == Some("/");
    assert Build(named).pointer == Some("/");
  }

  /** A location in the query or the header names its second element there, unless it is missing or falsy. */
  lemma QueryAndHeader(loc: seq<Part>)
    ensures loc == [] ==> Build(loc) == ErrorSource(None, None, None)
    ensures loc != [] && loc[0] == Field("query") ==>
              && Build(loc).pointer.None? && Build(loc).header.None?
              && (Build(loc).parameter.Some? <==> |loc| > 1 && loc[1] != Field("") && loc[1] != Index(0))
              && (Build(loc).parameter.Some? && loc[1].Field? ==> Build(loc).parameter.value == loc[1].name)
    ensures loc != [] && loc[0] == Field("header") ==>
              && Build(loc).pointer.None? && Build(loc).parameter.None?
              && (Build(loc).header.Some? <==> |loc| > 1 && loc[1] != Field("") && loc[1] != Index(0))
              && (Build(loc).header.Some? && loc[1].Field? ==> Build(loc).header.value == loc[1].name)
    ensures loc != [] && loc[0] != Field("query") && loc[0] != Field("header") ==>
              Build(loc).parameter.None? && Build(loc).header.None?
  {
  }

  // ----- Texts of indices -----

  /** The number a text of decimal digits stands for. */
  function NumberOf(s: string): int {
    if s == "" then 0 else NumberOf(s[..|s| - 1]) * 10 + (s[|s| - 1] as int - 48)
  }

  /** The text of an index is its decimal form: digits that stand for it, with no zero in front. */
  lemma {:induction false} NatTextIsDecimal(n: nat)
    ensures NatText(n) != "" && NumberOf(NatText(n)) == n
    ensures forall i | 0 <= i < |NatText(n)| :: '0' <= NatText(n)[i] <= '9'
    ensures n > 0 ==> NatText(n)[0] != '0'
  {
    var s := NatText(n);
    if n >= 10 {
      NatTextIsDecimal(n / 10);
      assert s[..|s| - 1] == NatText(n / 10);
    } else {
      assert s[..|s| - 1] == "";
    }
  }

  /** A negative index is written with a sign. */
  lemma NegativeText(n: int)
    ensures n < 0 ==> Str(Index(n)) == "-" + Str(Index(-n))
    ensures n >= 0 ==> NumberOf(Str(Index(n))) == n
  {
    if n >= 0 { NatTextIsDecimal(n); }
  }

  // ----- Every text that fits the pattern is a pointer -----

  lemma {:induction false} UnescapedToken(token: string)
    requires SegmentsMatch(token) && '/' !in token
    ensures Escape(Unescape(token)) == token
    decreases |token|
  {
    if token == "" {
    } else if token[0] == '~' {
      var rest := token[2..];
      assert forall c | c in rest :: c in token;
      UnescapedToken(rest);
      UnescapePair(token);
      EscapeStep(Unescape(token));
      assert Unescape(token)[1..] == Unescape(rest);
      assert token == [token[0]] + [token[1]] + rest;
    } else {
      var rest := token[1..];
      assert forall c | c in rest :: c in token;
      UnescapedToken(rest);
      UnescapeChar(token);
      EscapeStep(Unescape(token));
      assert Unescape(token)[1..] == Unescape(rest);
      assert token[0] in token && token == [token[0]] + rest;
    }
  }

  /** "~0" and "~1" are read as one character each. */
  lemma {:induction false} UnescapePair(token: string)
    requires |token| >= 2 && token[0] == '~' && (token[1] == '0' || token[1] == '1')
    ensures Unescape(token) == [if token[1] == '0' then '~' else '/'] + Unescape(token[2..])
  {
    var tail := ReplacePair(token[2..], '~', '1', '/');
    if token[1] == '0' {
      assert token[1..][1..] == token[2..];
      assert ReplacePair(token[1..], '~', '1', '/') == ['0'] + tail;
      var first := ReplacePair(token, '~', '1', '/');
      assert first == ['~'] + (['0'] + tail);
      assert first[2..] == tail;
    } else {
      var first := ReplacePair(token, '~', '1', '/');
      assert first == ['/'] + tail && first[1..] == tail;
    }
  }

  lemma {:induction false} UnescapeChar(token: string)
    requires token != "" && token[0] != '~'
    ensures Unescape(token) == [token[0]] + Unescape(token[1..])
  {
    var first := ReplacePair(token, '~', '1', '/');
    assert first[1..] == ReplacePair(token[1..], '~', '1', '/');
  }

  /** Splitting gives slash-free tokens that match when the whole does, and joining them gives it back. */
  lemma {:induction false} SplitTokens(s: string)
    requires SegmentsMatch(s)
    ensures forall i | 0 <= i < |Split(s)| :: SegmentsMatch(Split(s)[i]) && '/' !in Split(s)[i]
    ensures Joined(Split(s)) == "/" + s
    decreases |s|
  {
    if s == "" {
      assert Joined([""]) == "/" by { assert [""][1..] == []; }
    } else if s[0] == '/' {
      SplitTokens(s[1..]);
      assert Split(s)[1..] == Split(s[1..]);
      assert s == "/" + s[1..];
    } else {
      SplitChar(s);
    }
  }

  /** Each token after a "/". */
  function Joined(tokens: seq<string>): string {
    if tokens == [] then "" else "/" + tokens[0] + Joined(tokens[1..])
  }

  /** How many characters the first unit of a segment has. */
  function UnitLength(s: string): nat
    requires s != "" && SegmentsMatch(s)
    ensures UnitLength(s) <= |s|
  {
    if s[0] == '~' then 2 else 1
  }

  lemma SplitUnit(s: string)
    requires s != "" && s[0] != '/' && SegmentsMatch(s)
    ensures var (k, rest) := (UnitLength(s), Split(s[UnitLength(s)..]));
            SegmentsMatch(s[k..]) && Split(s) == [s[..k] + rest[0]] + rest[1..]
  {
    if s[0] == '~' {
      var rest := Split(s[2..]);
      assert s[1..][1..] == s[2..];
      assert Split(s[1..]) == [[s[1]] + rest[0]] + rest[1..];
      assert [s[0]] + ([s[1]] + rest[0]) == s[..2] + rest[0];
    } else {
      assert s[..1] == [s[0]];
    }
  }

  lemma UnitMatches(s: string, rest: string)
    requires s != "" && s[0] != '/' && SegmentsMatch(s) && SegmentsMatch(rest) && '/' !in rest
    ensures SegmentsMatch(s[..UnitLength(s)] + rest) && '/' !in s[..UnitLength(s)] + rest
  {
    var t := s[..UnitLength(s)] + rest;
    if s[0] == '~' {
      assert t[2..] == rest && t[0] == '~' && t[1] == s[1];
    } else {
      assert t[1..] == rest;
    }
  }

  lemma JoinedCons(token: string, tokens: seq<string>)
    ensures Joined([token] + tokens) == "/" + (token + Joined(tokens))
  {
    assert ([token] + tokens)[1..] == tokens;
  }

  lemma SameTail(x: string, y: string)
    requires "/" + x == "/" + y
    ensures x == y
  {
    assert ("/" + x)[1..] == x && ("/" + y)[1..] == y;
  }

  /** Joining tokens whose first one got longer. */
  lemma JoinUnit(unit: string, rest: seq<string>, tail: string)
    requires rest != [] && Joined(rest) == "/" + tail
    ensures Joined([unit + rest[0]] + rest[1..]) == "/" + (unit + tail)
  {
    hide Joined;
    var after := Joined(rest[1..]);
    assert rest == [rest[0]] + rest[1..];
    JoinedCons(rest[0], rest[1..]);
    SameTail(tail, rest[0] + after);
    JoinedCons(unit + rest[0], rest[1..]);
    assert (unit + rest[0]) + after == unit + (rest[0] + after);
  }

  lemma {:induction false} SplitChar(s: string)
    requires s != "" && s[0] != '/' && SegmentsMatch(s)
    ensures forall i | 0 <= i < |Split(s)| :: SegmentsMatch(Split(s)[i]) && '/' !in Split(s)[i]
    ensures Joined(Split(s)) == "/" + s
    decreases |s|, 0
  {
    hide Split, SegmentsMatch, Joined;
    var k := UnitLength(s);
    var rest := Split(s[k..]);
    SplitUnit(s);
    SplitTokens(s[k..]);
    UnitMatches(s, rest[0]);
    JoinUnit(s[..k], rest, s[k..]);
    assert s == s[..k] + s[k..];
  }

  /** Reading a text that fits the pattern and building it again gives it back: the pattern admits exactly the
      texts that are pointers. */
  lemma MatchedIsPointer(s: string)
    ensures MatchesPattern(s) ==> Pointer(Parse(s)) == s
    ensures MatchesPattern(s) <==> exists parts :: Pointer(parts) == s
  {
    if MatchesPattern(s) {
      if s == "" {
        assert Pointer([]) == s;
      } else {
        SplitTokens(s[1..]);
        EscapedTokens(Split(s[1..]));
        assert s == "/" + s[1..];
        assert Pointer(Parse(s)) == s;
      }
    }
    if parts :| Pointer(parts) == s {
      PointerMatches(parts);
    }
  }

  lemma {:induction false} EscapedTokens(tokens: seq<string>)
    requires forall i | 0 <= i < |tokens| :: SegmentsMatch(tokens[i]) && '/' !in tokens[i]
    ensures Pointer(seq(|tokens|, i requires 0 <= i < |tokens| => Unescape(tokens[i]))) == Joined(tokens)
  {
    var parts := seq(|tokens|, i requires 0 <= i < |tokens| => Unescape(tokens[i]));
    if tokens != [] {
      var rest := tokens[1..];
      UnescapedToken(tokens[0]);
      EscapedTokens(rest);
      assert parts[1..] == seq(|rest|, i requires 0 <= i < |rest| => Unescape(rest[i]));
    }
  }
}
