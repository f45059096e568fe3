/**
  The sitemap: two static routes followed by one route per project, whose
  path segment is the project's slug, `encodeURIComponent` of the name
  lower-cased with every run of white space replaced by '-'.

  `encodeURIComponent` follows section 18.2.6.5 of ECMA-262 (6th edition):
  the unreserved characters (letters, digits and `-_.!~*'()`) are kept and
  every other code point becomes the `%XX` escapes of its UTF-8 bytes, in
  upper-case hexadecimal. A Dafny `char` is a Unicode scalar value, so the
  lone surrogates for which it throws do not arise.
 */
module Sitemap {
  import opened Common
  import opened JsText

  /** The base URL when `NEXT_PUBLIC_BASE_URL` is unset or empty. */
  const DefaultBaseUrl: string := "https://projects.redlitchee.com"

  /** The characters `encodeURIComponent` leaves as they are. */
  predicate Unreserved(c: char)
  {
    ('A' <= c <= 'Z') || ('a' <= c <= 'z') || ('0' <= c <= '9') ||
    c == '-' || c == '_' || c == '.' || c == '!' || c == '~' || c == '*' || c == '\'' || c == '(' || c == ')'
  }

  /** An upper-case hexadecimal digit. */
  function HexDigit(n: nat): (c: char)
    requires n < 16
    ensures ('0' <= c <= '9') || ('A' <= c <= 'F')
  {
    if n < 10 then ('0' as int + n) as char else ('A' as int + n - 10) as char
  }

  /** The UTF-8 encoding of one code point: a lead byte, then six bits per continuation byte. */
  function Utf8(c: char): (bytes: seq<nat>)
    ensures 1 <= |bytes| <= 4 && forall i :: 0 <= i < |bytes| ==> bytes[i] < 256
  {
    var cp := c as int;
    if cp < 0x80 then [cp]
    else if cp < 0x800 then [0xC0 + cp / 64, 0x80 + cp % 64]
    else if cp < 0x10000 then [0xE0 + cp / 64 / 64, 0x80 + cp / 64 % 64, 0x80 + cp % 64]
    else [0xF0 + cp / 64 / 64 / 64, 0x80 + cp / 64 / 64 % 64, 0x80 + cp / 64 % 64, 0x80 + cp % 64]
  }

  /** The value a UTF-8 sequence of one to four bytes stands for. */
  function DecodeUtf8(bytes: seq<nat>): int
    requires 1 <= |bytes| <= 4
  {
    var b := seq(|bytes|, i requires 0 <= i < |bytes| => bytes[i] as int);
    if |b| == 1 then b[0]
    else if |b| == 2 then (b[0] - 0xC0) * 64 + (b[1] - 0x80)
    else if |b| == 3 then ((b[0] - 0xE0) * 64 + (b[1] - 0x80)) * 64 + (b[2] - 0x80)
    else (((b[0] - 0xF0) * 64 + (b[1] - 0x80)) * 64 + (b[2] - 0x80)) * 64 + (b[3] - 0x80)
  }

  /** The UTF-8 bytes give back the code point. */
  lemma Utf8RoundTrip(c: char)
    ensures DecodeUtf8(Utf8(c)) == c as int
  {
    var cp := c as int;
    var q1, r1 := cp / 64, cp % 64;
    var q2, r2 := q1 / 64, q1 % 64;
    var q3, r3 := q2 / 64, q2 % 64;
    assert cp == q1 * 64 + r1 && q1 == q2 * 64 + r2 && q2 == q3 * 64 + r3;
  }

  /** The first byte tells how many bytes the sequence has. */
  lemma Utf8LeadByte(c: char)
    ensures var b := Utf8(c);
      && (|b| == 1 <==> b[0] < 0x80)
      && (|b| == 2 <==> 0xC0 <= b[0] < 0xE0)
      && (|b| == 3 <==> 0xE0 <= b[0] < 0xF0)
      && (|b| == 4 <==> 0xF0 <= b[0] < 0xF8)
  {
  }

  /** `%XX` for one byte. */
  function PercentByte(b: nat): string
    requires b < 256
  {
    ['%', HexDigit(b / 16), HexDigit(b % 16)]
  }

  /** The escapes of a byte sequence, in order. */
  function PercentBytes(bytes: seq<nat>): (r: string)
    requires forall i :: 0 <= i < |bytes| ==> bytes[i] < 256
    ensures |r| == 3 * |bytes|
  {
    if bytes == [] then "" else PercentByte(bytes[0]) + PercentBytes(bytes[1..])
  }

  /** What `encodeURIComponent` makes of one code point. */
  function EncodeChar(c: char): string
  {
    if Unreserved(c) then [c] else PercentBytes(Utf8(c))
  }

  /** `encodeURIComponent`. */
  function EncodeURIComponent(s: string): string
  {
    if s == [] then "" else EncodeChar(s[0]) + EncodeURIComponent(s[1..])
  }

  /** A character that can appear in `encodeURIComponent`'s output. */
  predicate UriSafe(c: char)
  {
    Unreserved(c) || c == '%'
  }

  /** Encoding leaves only unreserved characters and `%`: no white space, no '/', no '?' and no '#'. */
  lemma {:induction false} EncodedAlphabet(s: string)
    ensures forall i :: 0 <= i < |EncodeURIComponent(s)| ==> UriSafe(EncodeURIComponent(s)[i])
  {
    if s != [] {
      EncodedAlphabet(s[1..]);
      if !Unreserved(s[0]) {
        PercentBytesAlphabet(Utf8(s[0]));
      }
      var e := EncodeChar(s[0]);
      var r := EncodeURIComponent(s);
      forall i | 0 <= i < |r|
        ensures UriSafe(r[i])
      {
        if i >= |e| {
          assert r[i] == EncodeURIComponent(s[1..])[i - |e|];
        }
      }
    }
  }

  lemma {:induction false} PercentBytesAlphabet(bytes: seq<nat>)
    requires forall i :: 0 <= i < |bytes| ==> bytes[i] < 256
    ensures forall i :: 0 <= i < |PercentBytes(bytes)| ==> UriSafe(PercentBytes(bytes)[i])
  {
    if bytes != [] {
      PercentBytesAlphabet(bytes[1..]);
      var r := PercentBytes(bytes);
      forall i | 0 <= i < |r|
        ensures UriSafe(r[i])
      {
        if i >= 3 {
          assert r[i] == PercentBytes(bytes[1..])[i - 3];
        }
      }
    }
  }

  /** A string of unreserved characters is its own encoding. */
  lemma {:induction false} EncodeUnreserved(s: string)
    requires forall i :: 0 <= i < |s| ==> Unreserved(s[i])
    ensures EncodeURIComponent(s) == s
  {
    if s != [] {
      EncodeUnreserved(s[1..]);
      assert s == [s[0]] + s[1..];
    }
  }

  /** The digit value of an upper-case hexadecimal digit. */
  function HexValue(c: char): int
  {
    if '0' <= c <= '9' then c as int - '0' as int else c as int - 'A' as int + 10
  }

  lemma HexRoundTrip(n: nat)
    requires n < 16
    ensures HexValue(HexDigit(n)) == n
  {
  }

  /** Equal escape strings of equal length come from equal bytes. */
  lemma {:induction false} PercentBytesInjective(xs: seq<nat>, ys: seq<nat>)
    requires forall i :: 0 <= i < |xs| ==> xs[i] < 256
    requires forall i :: 0 <= i < |ys| ==> ys[i] < 256
    requires PercentBytes(xs) == PercentBytes(ys)
    ensures xs == ys
  {
    if xs != [] {
      var p := PercentBytes(xs);
      assert p[1] == HexDigit(xs[0] / 16) == HexDigit(ys[0] / 16);
      assert p[2] == HexDigit(xs[0] % 16) == HexDigit(ys[0] % 16);
      HexRoundTrip(xs[0] / 16);
      HexRoundTrip(ys[0] / 16);
      HexRoundTrip(xs[0] % 16);
      HexRoundTrip(ys[0] % 16);
      assert xs[0] == ys[0];
      assert PercentBytes(xs[1..]) == p[3..] == PercentBytes(ys[1..]);
      PercentBytesInjective(xs[1..], ys[1..]);
    }
  }

  /**
    The encoding is prefix-free: when the encodings of two code points start
    two equal strings, the code points are equal and so are the rests.
   */
  lemma EncodeCharPrefix(a: char, b: char, x: string, y: string)
    requires EncodeChar(a) + x == EncodeChar(b) + y
    ensures a == b && x == y
  {
    var s := EncodeChar(a) + x;
    if Unreserved(a) || Unreserved(b) {
      assert s[0] == EncodeChar(a)[0] == EncodeChar(b)[0];
      assert Unreserved(a) && Unreserved(b);
      assert x == s[1..] == y;
    } else {
      var ba := Utf8(a);
      var bb := Utf8(b);
      assert s[1] == HexDigit(ba[0] / 16) == HexDigit(bb[0] / 16);
      assert s[2] == HexDigit(ba[0] % 16) == HexDigit(bb[0] % 16);
      HexRoundTrip(ba[0] / 16);
      HexRoundTrip(bb[0] / 16);
      HexRoundTrip(ba[0] % 16);
      HexRoundTrip(bb[0] % 16);
      Utf8LeadByte(a);
      Utf8LeadByte(b);
      assert |ba| == |bb|;
      assert EncodeChar(a) == s[..3 * |ba|] == EncodeChar(b);
      PercentBytesInjective(ba, bb);
      Utf8RoundTrip(a);
      Utf8RoundTrip(b);
    }
  }

  /** `encodeURIComponent` is injective: different strings get different encodings. */
  lemma {:induction false} EncodeInjective(s: string, t: string)
    requires EncodeURIComponent(s) == EncodeURIComponent(t)
    ensures s == t
  {
    if s == [] || t == [] {
      assert s == [] && t == [];
    } else {
      EncodeCharPrefix(s[0], t[0], EncodeURIComponent(s[1..]), EncodeURIComponent(t[1..]));
      EncodeInjective(s[1..], t[1..]);
    }
  }

  /** `s.replace(/\s+/g, '-')`: every maximal run of white space becomes one '-'. */
  function CollapseWhitespace(s: string): (r: string)
    ensures |r| <= |s|
    decreases |s|
  {
    if s == [] then ""
    else if IsWhitespace(s[0]) then "-" + CollapseWhitespace(TrimStart(s[1..]))
    else [s[0]] + CollapseWhitespace(s[1..])
  }

  /** No white space survives the replacement. */
  lemma {:induction false} CollapseSpec(s: string)
    ensures NoWhitespace(CollapseWhitespace(s))
    decreases |s|
  {
    if s != [] {
      var tail := if IsWhitespace(s[0]) then TrimStart(s[1..]) else s[1..];
      CollapseSpec(tail);
      var r := CollapseWhitespace(s);
      forall i | 0 <= i < |r|
        ensures !IsWhitespace(r[i])
      {
        if i >= 1 {
          assert r[i] == CollapseWhitespace(tail)[i - 1];
        }
      }
    }
  }

  /**
    Every character of the result is '-' or a character of the input: a
    property that holds of '-' and of every input character holds of every
    output character.
   */
  lemma {:induction false} CollapseKeeps(s: string, keep: char -> bool)
    requires keep('-') && forall i :: 0 <= i < |s| ==> keep(s[i])
    ensures forall i :: 0 <= i < |CollapseWhitespace(s)| ==> keep(CollapseWhitespace(s)[i])
    decreases |s|
  {
    if s != [] {
      var tail := if IsWhitespace(s[0]) then TrimStart(s[1..]) else s[1..];
      TrimStartSpec(s[1..]);
      SuffixKeeps(s, |s| - |tail|, keep);
      assert tail == s[|s| - |tail|..];
      CollapseKeeps(tail, keep);
      var r := CollapseWhitespace(s);
      assert r == [r[0]] + CollapseWhitespace(tail);
    }
  }

  lemma SuffixKeeps(s: string, k: nat, keep: char -> bool)
    requires k <= |s| && forall i :: 0 <= i < |s| ==> keep(s[i])
    ensures forall i :: 0 <= i < |s[k..]| ==> keep(s[k..][i])
  {
    forall i | 0 <= i < |s[k..]|
      ensures keep(s[k..][i])
    {
      assert s[k..][i] == s[k + i];
    }
  }

  /** A string without white space is left as it is. */
  lemma {:induction false} CollapseNoWhitespace(s: string)
    requires NoWhitespace(s)
    ensures CollapseWhitespace(s) == s
  {
    if s != [] {
      CollapseNoWhitespace(s[1..]);
      assert s == [s[0]] + s[1..];
    }
  }

  /** The replacement is idempotent. */
  lemma CollapseIdempotent(s: string)
    ensures CollapseWhitespace(CollapseWhitespace(s)) == CollapseWhitespace(s)
  {
    CollapseSpec(s);
    CollapseNoWhitespace(CollapseWhitespace(s));
  }

  /** The name before encoding: lower-cased, white-space runs replaced by '-'. */
  function SlugBase(name: string): string
  {
    CollapseWhitespace(ToLower(name))
  }

  /** `encodeURIComponent(name.toLowerCase().replace(/\s+/g, '-'))`. */
  function Slug(name: string): string
  {
    EncodeURIComponent(SlugBase(name))
  }

  /** A lower-case string is its own lower case. */
  lemma LowerFixed(s: string)
    requires forall i :: 0 <= i < |s| ==> LowerChar(s[i]) == s[i]
    ensures ToLower(s) == s
  {
  }

  /**
    The string before encoding has no white space, and lower-casing and
    replacing again changes nothing.
   */
  lemma SlugBaseIdempotent(name: string)
    ensures NoWhitespace(SlugBase(name))
    ensures SlugBase(SlugBase(name)) == SlugBase(name)
  {
    var t := ToLower(name);
    var b := CollapseWhitespace(t);
    CollapseSpec(t);
    var lowered := (c: char) => LowerChar(c) == c;
    CollapseKeeps(t, lowered);
    LowerFixed(b);
    CollapseIdempotent(t);
  }

  /**
    Two names get the same slug exactly when they agree once lower-cased
    with their white-space runs replaced, and a slug is one path segment
    of URI-safe characters.
   */
  lemma SameSlugIff(a: string, b: string)
    ensures Slug(a) == Slug(b) <==> SlugBase(a) == SlugBase(b)
    ensures forall i :: 0 <= i < |Slug(a)| ==> UriSafe(Slug(a)[i]) && Slug(a)[i] != '/'
  {
    if Slug(a) == Slug(b) {
      EncodeInjective(SlugBase(a), SlugBase(b));
    }
    EncodedAlphabet(SlugBase(a));
  }

  datatype ChangeFrequency = Daily | Weekly

  /** One sitemap entry; `lastModified` (the time of the request) is left out. */
  datatype Route = Route(url: string, changeFrequency: ChangeFrequency, priority: real)

  /** `process.env.NEXT_PUBLIC_BASE_URL || 'https://projects.redlitchee.com'`. */
  function BaseUrl(env: Option<string>): (r: string)
    ensures Truthy(env) ==> r == env.value
    ensures !Truthy(env) ==> r == DefaultBaseUrl
  {
    if Truthy(env) then env.value else DefaultBaseUrl
  }

  /** The entry of one project. */
  function ProjectRoute(baseUrl: string, name: string): Route
  {
    Route(baseUrl + "/projects/" + Slug(name), Weekly, 0.8)
  }

  /** `sitemap()` on the list `getAllProjects` delivered. */
  function SitemapRoutes<P>(projects: seq<P>, nameOf: P -> string, env: Option<string>): seq<Route>
  {
    var baseUrl := BaseUrl(env);
    [Route(baseUrl, Daily, 1.0), Route(baseUrl + "/projects", Daily, 0.9)]
      + seq(|projects|, i requires 0 <= i < |projects| => ProjectRoute(baseUrl, nameOf(projects[i])))
  }

  /**
    The home page and the listing come first, both daily; then one weekly
    entry per project, in project order, under `/projects/`.
   */
  lemma SitemapShape<P>(projects: seq<P>, nameOf: P -> string, env: Option<string>)
    ensures var r := SitemapRoutes(projects, nameOf, env); var baseUrl := BaseUrl(env);
      && |r| == 2 + |projects|
      && r[0] == Route(baseUrl, Daily, 1.0)
      && r[1] == Route(baseUrl + "/projects", Daily, 0.9)
      && forall i :: 0 <= i < |projects| ==>
           r[2 + i] == Route(baseUrl + "/projects/" + Slug(nameOf(projects[i])), Weekly, 0.8)
  {
  }

  /** Two projects share a sitemap URL exactly when their names agree once lower-cased and collapsed. */
  lemma SharedUrlIff<P>(projects: seq<P>, nameOf: P -> string, env: Option<string>, i: nat, j: nat)
    requires i < |projects| && j < |projects|
    ensures var r := SitemapRoutes(projects, nameOf, env);
      r[2 + i].url == r[2 + j].url <==> SlugBase(nameOf(projects[i])) == SlugBase(nameOf(projects[j]))
  {
    var baseUrl := BaseUrl(env);
    var p := baseUrl + "/projects/";
    var si := Slug(nameOf(projects[i]));
    var sj := Slug(nameOf(projects[j]));
    SitemapShape(projects, nameOf, env);
    SameSlugIff(nameOf(projects[i]), nameOf(projects[j]));
    if p + si == p + sj {
      assert si == (p + si)[|p|..] == (p + sj)[|p|..] == sj;
    }
  }
}
