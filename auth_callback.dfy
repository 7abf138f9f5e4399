/** The OAuth and e-mail link landing page: from the query parameters of the callback URL
    and the result of exchanging a code for a session, the one navigation it makes. The
    error text travels in the query string through `encodeURIComponent`, modelled here
    together with the percent-decoding that reads it back. */
module AuthCallback {
  import opened Basics
  import opened AppRoutes

  // ---------------------------------------------------------------- encodeURIComponent

  /** The characters `encodeURIComponent` leaves as they are. */
  predicate Unreserved(c: char) {
    ('A' <= c <= 'Z') || ('a' <= c <= 'z') || ('0' <= c <= '9') || c in "-_.!~*'()"
  }

  /** An upper-case hexadecimal digit. */
  function HexUpper(v: int): (c: char)
    requires 0 <= v < 16
    ensures Unreserved(c) && HexVal(c) == Some(v)
  {
    if v < 10 then ('0' as int + v) as char else ('A' as int + v - 10) as char
  }

  /** A hexadecimal digit of a percent escape, in either case. */
  function HexVal(c: char): (r: Option<int>)
    ensures r.Some? ==> 0 <= r.value < 16
  {
    if '0' <= c <= '9' then Some(c as int - '0' as int)
    else if 'A' <= c <= 'F' then Some(c as int - 'A' as int + 10)
    else if 'a' <= c <= 'f' then Some(c as int - 'a' as int + 10)
    else None
  }

  predicate IsByte(b: int) { 0 <= b < 256 }

  predicate Bytes(bs: seq<int>) { forall i :: 0 <= i < |bs| ==> IsByte(bs[i]) }

  /** The UTF-8 encoding of a character: one to four bytes. */
  function Utf8(c: char): (bs: seq<int>)
    ensures 1 <= |bs| <= 4 && Bytes(bs)
  {
    var cp := c as int;
    var q1 := cp / 64;
    var q2 := q1 / 64;
    if cp < 0x80 then [cp]
    else if cp < 0x800 then [0xC0 + q1, 0x80 + cp % 64]
    else if cp < 0x10000 then [0xE0 + q2, 0x80 + q1 % 64, 0x80 + cp % 64]
    else [0xF0 + q2 / 64, 0x80 + q2 % 64, 0x80 + q1 % 64, 0x80 + cp % 64]
  }

  /** `%XY` for each byte, with upper-case digits. */
  function PercentBytes(bs: seq<int>): (s: string)
    requires Bytes(bs)
    ensures |s| == 3 * |bs|
  {
    if bs == [] then []
    else ['%', HexUpper(bs[0] / 16), HexUpper(bs[0] % 16)] + PercentBytes(bs[1..])
  }

  function EncodeChar(c: char): string {
    if Unreserved(c) then [c] else PercentBytes(Utf8(c))
  }

  /** `encodeURIComponent(s)`. A Dafny string holds Unicode scalar values only, so the
      lone surrogates on which the JavaScript function throws do not arise. */
  function EncodeURIComponent(s: string): string {
    if s == [] then [] else EncodeChar(s[0]) + EncodeURIComponent(s[1..])
  }

  // ---------------------------------------------------------------- decodeURIComponent

  /** The byte of the escape `%XY` at position `i`, if there is one. */
  function ByteAt(s: string, i: nat): (r: Option<int>)
    ensures r.Some? ==> IsByte(r.value)
  {
    if i + 3 <= |s| && s[i] == '%' && HexVal(s[i + 1]).Some? && HexVal(s[i + 2]).Some?
    then Some(16 * HexVal(s[i + 1]).value + HexVal(s[i + 2]).value)
    else None
  }

  /** The bytes of a string made only of escapes. */
  function PercentDecode(s: string): (r: Option<seq<int>>)
    ensures r.Some? ==> Bytes(r.value)
    decreases |s|
  {
    if s == [] then Some([])
    else if ByteAt(s, 0).None? then None
    else
      var rest := PercentDecode(s[3..]);
      if rest.None? then None else Some([ByteAt(s, 0).value] + rest.value)
  }

  /** The length of the UTF-8 sequence a lead byte announces; 0 for a byte that cannot
      lead a sequence. */
  function Utf8Length(lead: int): nat {
    if 0 <= lead < 0x80 then 1
    else if 0xC0 <= lead < 0xE0 then 2
    else if 0xE0 <= lead < 0xF0 then 3
    else if 0xF0 <= lead < 0xF8 then 4
    else 0
  }

  predicate Continuation(b: int) { 0x80 <= b < 0xC0 }

  predicate IsScalar(v: int) { (0 <= v < 0xD800) || (0xE000 <= v < 0x110000) }

  /** The smallest code point a sequence of `n` bytes may carry (shorter forms are
      overlong and refused). */
  function MinCodePoint(n: nat): int {
    if n <= 1 then 0 else if n == 2 then 0x80 else if n == 3 then 0x800 else 0x10000
  }

  /** The character a complete UTF-8 sequence stands for, if it is well formed. */
  function CodePoint(bs: seq<int>): Option<char> {
    if |bs| == 0 || Utf8Length(bs[0]) != |bs| || exists i :: 1 <= i < |bs| && !Continuation(bs[i]) then None
    else
      var v :=
        if |bs| == 1 then bs[0]
        else if |bs| == 2 then (bs[0] - 0xC0) * 64 + (bs[1] - 0x80)
        else if |bs| == 3 then ((bs[0] - 0xE0) * 64 + (bs[1] - 0x80)) * 64 + (bs[2] - 0x80)
        else (((bs[0] - 0xF0) * 64 + (bs[1] - 0x80)) * 64 + (bs[2] - 0x80)) * 64 + (bs[3] - 0x80);
      if IsScalar(v) && v >= MinCodePoint(|bs|) then Some(v as char) else None
  }

  function Cons(c: char, rest: Option<string>): Option<string> {
    if rest.None? then None else Some([c] + rest.value)
  }

  /** `decodeURIComponent(s)`: `None` where it throws a `URIError`. */
  function DecodeURIComponent(s: string): Option<string>
    decreases |s|
  {
    if s == [] then Some([])
    else if s[0] != '%' then Cons(s[0], DecodeURIComponent(s[1..]))
    else if ByteAt(s, 0).None? then None
    else
      var n := Utf8Length(ByteAt(s, 0).value);
      if n == 0 || |s| < 3 * n then None
      else
        var bs := PercentDecode(s[..3 * n]);
        if bs.None? then None
        else
          var c := CodePoint(bs.value);
          if c.None? then None else Cons(c.value, DecodeURIComponent(s[3 * n..]))
  }

  // ---------------------------------------------------------------- round trip

  lemma HexPair(b: int)
    requires IsByte(b)
    ensures 16 * HexVal(HexUpper(b / 16)).value + HexVal(HexUpper(b % 16)).value == b
  {
  }

  /** The first escape of an encoding reads as its first byte, whatever follows. */
  lemma PercentBytesHead(bs: seq<int>, t: string)
    requires Bytes(bs) && bs != []
    ensures ByteAt(PercentBytes(bs) + t, 0) == Some(bs[0])
  {
    var s := PercentBytes(bs) + t;
    HexPair(bs[0]);
    assert s[0] == '%' && s[1] == HexUpper(bs[0] / 16) && s[2] == HexUpper(bs[0] % 16);
  }

  lemma {:induction false} PercentBytesRead(bs: seq<int>)
    requires Bytes(bs)
    ensures PercentDecode(PercentBytes(bs)) == Some(bs)
  {
    if bs != [] {
      var s := PercentBytes(bs);
      assert s[3..] == PercentBytes(bs[1..]);
      PercentBytesRead(bs[1..]);
      PercentBytesHead(bs, []);
      assert s + [] == s;
      assert [bs[0]] + bs[1..] == bs;
    }
  }

  /** Decoding the UTF-8 bytes of a character gives the character back. */
  lemma Utf8RoundTrip(c: char)
    ensures Utf8Length(Utf8(c)[0]) == |Utf8(c)|
    ensures CodePoint(Utf8(c)) == Some(c)
  {
    var cp := c as int;
    var q1 := cp / 64;
    var q2 := q1 / 64;
    assert cp == 64 * q1 + cp % 64;
    assert q1 == 64 * q2 + q1 % 64;
    assert q2 == 64 * (q2 / 64) + q2 % 64;
  }

  /** One encoded character, followed by anything, decodes to that character followed by
      the decoding of the rest. */
  lemma DecodeEncodedChar(c: char, t: string)
    ensures DecodeURIComponent(EncodeChar(c) + t) == Cons(c, DecodeURIComponent(t))
  {
    var s := EncodeChar(c) + t;
    if Unreserved(c) {
      assert s[0] == c && s[1..] == t;
    } else {
      var bs := Utf8(c);
      var e := PercentBytes(bs);
      PercentBytesRead(bs);
      PercentBytesHead(bs, t);
      Utf8RoundTrip(c);
      assert s[0] == '%';
      assert s[..3 * |bs|] == e;
      assert s[3 * |bs|..] == t;
    }
  }

  /** `decodeURIComponent(encodeURIComponent(s)) == s` for every string. */
  lemma {:induction false} EncodeRoundTrip(s: string)
    ensures DecodeURIComponent(EncodeURIComponent(s)) == Some(s)
  {
    if s != [] {
      EncodeRoundTrip(s[1..]);
      DecodeEncodedChar(s[0], EncodeURIComponent(s[1..]));
      assert [s[0]] + s[1..] == s;
    }
  }

  lemma {:induction false} PercentBytesAlphabet(bs: seq<int>)
    requires Bytes(bs)
    ensures forall i :: 0 <= i < |PercentBytes(bs)| ==> Unreserved(PercentBytes(bs)[i]) || PercentBytes(bs)[i] == '%'
  {
    if bs != [] {
      PercentBytesAlphabet(bs[1..]);
    }
  }

  /** The encoding holds only unreserved characters and `%`: no `&`, `#`, `=`, `+` or
      space that could end or split the query parameter. */
  lemma {:induction false} EncodeAlphabet(s: string)
    ensures forall i :: 0 <= i < |EncodeURIComponent(s)| ==>
      Unreserved(EncodeURIComponent(s)[i]) || EncodeURIComponent(s)[i] == '%'
  {
    if s != [] {
      EncodeAlphabet(s[1..]);
      if !Unreserved(s[0]) {
        PercentBytesAlphabet(Utf8(s[0]));
      }
    }
  }

  // ---------------------------------------------------------------- handleCallback

  /** `url.searchParams.get(…)` of the three parameters: `None` for an absent one. */
  datatype Params = Params(code: Option<string>, error: Option<string>, errorDescription: Option<string>)

  /** A parameter is truthy when present and non-empty. */
  predicate Truthy(v: Option<string>) { v.Some? && v.value != "" }

  /** The one `navigate(…, { replace: true })` the page makes: a path, and the `error`
      query parameter when there is one. */
  datatype Navigation = Navigation(path: Path, errorText: Option<string>, replace: bool)

  /** The code handed to `exchangeCodeForSession`, when the page makes that call. */
  function ExchangedCode(p: Params): (r: Option<string>)
    ensures r.Some? <==> !Truthy(p.error) && Truthy(p.code)
    ensures r.Some? ==> r == p.code
  {
    if Truthy(p.error) then None else if Truthy(p.code) then p.code else None
  }

  /** `errorDescription || errorParam`. */
  function ErrorText(p: Params): (t: string)
    requires Truthy(p.error)
    ensures t != ""
    ensures Truthy(p.errorDescription) ==> t == p.errorDescription.value
    ensures !Truthy(p.errorDescription) ==> t == p.error.value
  {
    if Truthy(p.errorDescription) then p.errorDescription.value else p.error.value
  }

  /** `handleCallback`. `exchangeFailed` is whether the exchange returned an error; it is
      only consulted when an exchange is made. */
  function HandleCallback(p: Params, exchangeFailed: bool): (n: Navigation)
    ensures n.replace
    ensures n.errorText.Some? <==> Truthy(p.error)
  {
    if Truthy(p.error) then Navigation(["login"], Some(ErrorText(p)), true)
    else if Truthy(p.code) && exchangeFailed then Navigation(["login"], None, true)
    else Navigation(["dashboard"], None, true)
  }

  /** The location string navigated to. */
  function Href(n: Navigation): string {
    PathString(n.path) + (if n.errorText.Some? then "?error=" + EncodeURIComponent(n.errorText.value) else "")
  }

  /** An `error` parameter sends to the login page with the description (or the error
      code) whether or not a code came too, and whatever an exchange would have said. */
  lemma ErrorWinsOverCode(p: Params, code: Option<string>, f: bool, g: bool)
    requires Truthy(p.error)
    ensures ExchangedCode(p).None?
    ensures HandleCallback(p, f) == HandleCallback(p.(code := code), g)
    ensures HandleCallback(p, f) == Navigation(["login"], Some(ErrorText(p)), true)
  {
  }

  /** The exchange result matters only when an exchange is made. */
  lemma ExchangeOnlyWithCode(p: Params)
    requires ExchangedCode(p).None?
    ensures HandleCallback(p, true) == HandleCallback(p, false)
  {
  }

  /** The dashboard is reached exactly when there is no error and no failed exchange;
      the bare login page exactly after a failed exchange. */
  lemma OutcomesExactly(p: Params, failed: bool)
    ensures HandleCallback(p, failed).path == ["dashboard"] <==>
      !Truthy(p.error) && (!Truthy(p.code) || !failed)
    ensures HandleCallback(p, failed) == Navigation(["login"], None, true) <==>
      ExchangedCode(p).Some? && failed
  {
  }

  /** No character of an encoding can end or split a query parameter. */
  lemma NoDelimiters(s: string)
    ensures forall i :: 0 <= i < |EncodeURIComponent(s)| ==> EncodeURIComponent(s)[i] !in "&#=+? "
  {
    EncodeAlphabet(s);
  }

  /** The login URL carries the error text as its single query parameter, and reading
      that parameter back gives the text. */
  lemma ErrorReachesLogin(p: Params, f: bool)
    requires Truthy(p.error)
    ensures Href(HandleCallback(p, f)) == "/login?error=" + EncodeURIComponent(ErrorText(p))
    ensures DecodeURIComponent(EncodeURIComponent(ErrorText(p))) == Some(ErrorText(p))
    ensures forall i :: 0 <= i < |EncodeURIComponent(ErrorText(p))| ==> EncodeURIComponent(ErrorText(p))[i] !in "&#=+? "
  {
    var n := HandleCallback(p, f);
    assert n.path == ["login"] && n.errorText == Some(ErrorText(p));
    assert PathString(["login"]) == "/login";
    EncodeRoundTrip(ErrorText(p));
    NoDelimiters(ErrorText(p));
  }

  /** Both targets are routes of the table: the login page is public and the dashboard
      needs a signed-in user. The callback page's own path is not one. */
  lemma TargetsAreRouted(p: Params, f: bool)
    ensures Match(HandleCallback(p, f).path) != NotFound
    ensures HandleCallback(p, f).path == ["login"] ==> Requirement(Match(["login"])) == None
    ensures HandleCallback(p, f).path == ["dashboard"] ==> Requirement(Match(["dashboard"])) == Some(false)
    ensures Match(["auth", "callback"]) == NotFound
  {
    TargetRoutes();
    AuthCallbackIsNotRouted();
  }

  /** A space is escaped, letters are not. */
  lemma EncodeSpaceExample()
    ensures EncodeURIComponent("a b") == "a%20b"
  {
    assert EncodeChar(' ') == "%20";
    assert EncodeURIComponent("b") == "b";
    assert EncodeURIComponent(" b") == "%20" + "b";
  }

  /** A character outside ASCII is escaped byte by byte, in UTF-8. */
  lemma EncodeMultibyteExample()
    ensures EncodeChar('ñ') == "%C3%B1"
  {
    assert 'ñ' as int == 241;
    assert Utf8('ñ') == [0xC3, 0xB1];
    assert PercentBytes([0xB1]) == "%B1";
  }
}
