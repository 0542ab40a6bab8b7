/** URLs put together from their parts: http_parser_parse_url accepts these texts and no others, and its fields
    are the parts. */
module UrlTexts {
  import opened Bytes
  import opened Options
  import opened Powers
  import opened CodePoints
  import opened UrlSpec
  import opened UrlHost
  import opened Urls
  import JsonDigits

  // ---- characters

  const Figures := "0123456789"
  const Marks := "-_.!~*'()"
  const UserSigns := "%;:&=+$,"

  predicate Letter(c: u8) { IsIn(Capitals, c) || IsIn(Smalls, c) }
  predicate Figure(c: u8) { IsIn(Figures, c) }
  predicate UserByte(c: u8) { Letter(c) || Figure(c) || IsIn(Marks, c) || IsIn(UserSigns, c) }
  predicate NameByte(c: u8) { Letter(c) || Figure(c) || IsIn(".-", c) }
  predicate AddressByte(c: u8) { Figure(c) || IsIn("ABCDEF", c) || IsIn("abcdef", c) || IsIn(":.", c) }
  predicate ZoneByte(c: u8) { Letter(c) || Figure(c) || IsIn("%.-_~", c) }

  /** normal_url_char, eight characters a byte. */
  const UrlBits: seq<u8> :=
    [0x00, 0x00, 0x00, 0x00, 0xf6, 0xff, 0xff, 0x7f, 0xff, 0xff, 0xff, 0xff, 0xff, 0xff, 0xff, 0x7f]

  predicate UrlByte(c: u8) { c < 0x80 && UrlBits[c / 8] as int / Pow(2, c % 8) % 2 == 1 }

  lemma FiguresAre(c: u8)
    ensures IsIn(Figures, c) <==> 48 <= c <= 57
  {
    if 48 <= c <= 57 { assert Figures[c - 48] as int == c; }
  }

  lemma MarksAre(c: u8)
    ensures IsIn(Marks, c) <==> IsMark(c)
  {
    var k := if c == 45 then 0 else if c == 95 then 1 else if c == 46 then 2 else if c == 33 then 3
        else if c == 126 then 4 else if c == 42 then 5 else if c == 39 then 6 else if c == 40 then 7 else 8;
    if IsMark(c) { assert Marks[k] as int == c; }
  }

  lemma UserSignsAre(c: u8)
    ensures IsIn(UserSigns, c) <==> c == 37 || c == 59 || c == 58 || c == 38 || c == 61 || c == 43 || c == 36 || c == 44
  {
    var k := if c == 37 then 0 else if c == 59 then 1 else if c == 58 then 2 else if c == 38 then 3
        else if c == 61 then 4 else if c == 43 then 5 else if c == 36 then 6 else 7;
    if c in [37, 59, 58, 38, 61, 43, 36, 44] { assert UserSigns[k] as int == c; }
  }

  lemma ZoneSignsAre(c: u8)
    ensures IsIn("%.-_~", c) <==> c == 37 || c == 46 || c == 45 || c == 95 || c == 126
  {
    var w := "%.-_~";
    var k := if c == 37 then 0 else if c == 46 then 1 else if c == 45 then 2 else if c == 95 then 3 else 4;
    if c in [37, 46, 45, 95, 126] { assert w[k] as int == c; }
  }

  lemma NameSignsAre(c: u8)
    ensures IsIn(".-", c) <==> c == 46 || c == 45
    ensures IsIn(":.", c) <==> c == 58 || c == 46
  {
    var (v, w) := (".-", ":.");
    assert v[0] as int == 46 && v[1] as int == 45 && w[0] as int == 58 && w[1] as int == 46;
  }

  lemma HexSignsAre(c: u8)
    ensures IsIn("ABCDEF", c) <==> 65 <= c <= 70
    ensures IsIn("abcdef", c) <==> 97 <= c <= 102
  {
    var (v, w) := ("ABCDEF", "abcdef");
    if 65 <= c <= 70 { assert v[c - 65] as int == c; }
    if 97 <= c <= 102 { assert w[c - 97] as int == c; }
  }

  lemma LettersAre(c: u8)
    ensures Letter(c) <==> IsAlpha(c)
    ensures Figure(c) <==> IsNum(c)
  {
    CapitalsAre(c);
    SmallsAre(c);
    FiguresAre(c);
  }

  /** The classes of the parser are these lists of characters. */
  lemma ClassesAre(c: u8)
    ensures IsUserinfo(c) <==> UserByte(c)
    ensures IsHostChar(c) <==> NameByte(c)
    ensures IsV6Char(c) <==> AddressByte(c)
    ensures IsZoneChar(c) <==> ZoneByte(c)
  {
    hide IsIn, Letter, Figure;
    LettersAre(c);
    MarksAre(c);
    UserSignsAre(c);
    ZoneSignsAre(c);
    NameSignsAre(c);
    HexSignsAre(c);
    hide IsMark;
  }

  lemma BitsAre(v: u8, r: nat)
    requires r < 8
    ensures v == 0xff ==> v / Pow(2, r) % 2 == 1
    ensures v == 0 ==> v / Pow(2, r) % 2 == 0
    ensures v == 0x7f ==> (v / Pow(2, r) % 2 == 1 <==> r != 7)
    ensures v == 0xf6 ==> (v / Pow(2, r) % 2 == 1 <==> r != 0 && r != 3)
  {
    SmallPowers();
  }

  lemma SmallPowers()
    ensures Pow(2, 0) == 1 && Pow(2, 1) == 2 && Pow(2, 2) == 4 && Pow(2, 3) == 8 && Pow(2, 4) == 16 && Pow(2, 5) == 32
        && Pow(2, 6) == 64 && Pow(2, 7) == 128
  {
    assert Pow(2, 1) == 2 * Pow(2, 0);
    assert Pow(2, 2) == 2 * Pow(2, 1);
    assert Pow(2, 3) == 2 * Pow(2, 2);
    assert Pow(2, 4) == 2 * Pow(2, 3);
    assert Pow(2, 5) == 2 * Pow(2, 4);
    assert Pow(2, 6) == 2 * Pow(2, 5);
  }

  /** The characters of paths are those whose bit is set. */
  lemma UrlByteIs(c: u8)
    ensures IsUrlChar(c) <==> UrlByte(c)
  {
    if c < 0x80 {
      BitsAre(UrlBits[c / 8], c % 8);
      hide Pow;
      assert c == 8 * (c / 8) + c % 8;
      assert c / 8 == 4 || c / 8 == 7 || c / 8 == 15 || c / 8 < 4 || UrlBits[c / 8] == 0xff;
    }
  }

  // ---- the parts

  /** A name, or an address in brackets, which may have a zone. */
  datatype Name = Plain(name: seq<u8>) | Address(address: seq<u8>, zone: Option<seq<u8>>)

  datatype Authority = Authority(user: Option<seq<u8>>, name: Name, port: Option<seq<u8>>)

  /** What stands before a fragment is one # sign and more of them. */
  datatype Anchor = Anchor(more: nat, text: seq<u8>)

  datatype Rest = Rest(path: seq<u8>, query: Option<seq<u8>>, anchor: Option<Anchor>)

  datatype Url = Absolute(schema: seq<u8>, server: Authority, rest: Rest) | Relative(rest: Rest)
    | Connect(server: Authority, rest: Rest)

  predicate All(t: seq<u8>, P: u8 -> bool) { forall k | 0 <= k < |t| :: P(t[k]) }

  predicate QueryByte(c: u8) { UrlByte(c) || c == 0x3f }
  predicate AnchorByte(c: u8) { UrlByte(c) || c == 0x3f || c == 0x23 }

  predicate ProperName(n: Name) {
    match n
    case Plain(t) => t != [] && All(t, NameByte)
    case Address(t, zone) =>
      t != [] && All(t, AddressByte) && (zone.Some? ==> zone.value != [] && All(zone.value, ZoneByte))
  }

  /** A server part with a port of any size. */
  predicate LooseServer(v: Authority) {
    && (v.user.Some? ==> All(v.user.value, UserByte)) && ProperName(v.name)
    && (v.port.Some? ==> v.port.value != [] && All(v.port.value, Figure))
  }

  predicate ProperServer(v: Authority) {
    LooseServer(v) && (v.port.Some? ==> JsonDigits.Value(v.port.value) <= 65535)
  }

  predicate ProperAnchor(x: Anchor) { All(x.text, AnchorByte) && (x.text != [] ==> x.text[0] != 0x23) }

  predicate ProperRest(r: Rest) {
    && (r.path != [] ==> (r.path[0] == 0x2f || r.path[0] == 0x2a) && All(r.path, UrlByte))
    && (r.query.Some? ==> All(r.query.value, QueryByte))
    && (r.anchor.Some? ==> ProperAnchor(r.anchor.value))
  }

  /** Behind a server a path begins with a slash, and an anchor needs a path or a question mark before it. */
  predicate BehindServer(r: Rest) {
    && ProperRest(r) && (r.path != [] ==> r.path[0] == 0x2f)
    && (r.path == [] && r.anchor.Some? ==> r.query.Some?)
  }

  /** Requests of CONNECT have a name and a port, and no more than empty parts beside them. */
  predicate Proper(u: Url) {
    match u
    case Absolute(schema, server, rest) =>
      schema != [] && All(schema, Letter) && ProperServer(server) && BehindServer(rest)
    case Relative(rest) => ProperRest(rest) && rest.path != []
    case Connect(server, rest) =>
      && ProperServer(server) && BehindServer(rest) && server.port.Some? && rest.path == []
      && (server.user.Some? ==> server.user.value == []) && (rest.query.Some? ==> rest.query.value == [])
      && (rest.anchor.Some? ==> rest.anchor.value.text == [])
  }

  // ---- the text

  function NameText(n: Name): (t: seq<u8>) {
    match n
    case Plain(t) => t
    case Address(t, zone) => [0x5b] + (t + ((match zone case None => [] case Some(z) => [0x25] + z) + [0x5d]))
  }

  function UserText(user: Option<seq<u8>>): seq<u8> { match user case None => [] case Some(t) => t + [0x40] }
  function PortText(port: Option<seq<u8>>): seq<u8> { match port case None => [] case Some(t) => [0x3a] + t }
  function ServerText(v: Authority): seq<u8> { UserText(v.user) + (NameText(v.name) + PortText(v.port)) }

  function Signs(n: nat): seq<u8> { seq(n, _ => 0x23) }
  function QueryText(q: Option<seq<u8>>): seq<u8> { match q case None => [] case Some(t) => [0x3f] + t }
  function AnchorText(a: Option<Anchor>): seq<u8> {
    match a case None => [] case Some(x) => [0x23] + (Signs(x.more) + x.text)
  }
  function RestText(r: Rest): seq<u8> { r.path + (QueryText(r.query) + AnchorText(r.anchor)) }

  function UrlText(u: Url): seq<u8> {
    match u
    case Absolute(schema, server, rest) => schema + ([0x3a, 0x2f, 0x2f] + (ServerText(server) + RestText(rest)))
    case Relative(rest) => RestText(rest)
    case Connect(server, rest) => ServerText(server) + RestText(rest)
  }

  // ---- the fields

  /** The field of n bytes at i. */
  function Part(i: nat, n: nat): Field { if n == 0 then Absent else Run(i, n) }

  function RestFields(i: nat, r: Rest, u: Fields): Fields {
    var q := i + |r.path|;
    var a := q + |QueryText(r.query)|;
    u.(path := Part(i, |r.path|),
       query := if r.query.Some? then Part(q + 1, |r.query.value|) else Absent,
       fragment := if r.anchor.Some? then Part(a + 1 + r.anchor.value.more, |r.anchor.value.text|) else Absent)
  }

  /** The field of an address leaves out the brackets. */
  function NameField(h: nat, n: Name): Field {
    if n.Plain? then Part(h, |n.name|) else Part(h + 1, |NameText(n)| - 2)
  }

  function PortField(p: nat, port: Option<seq<u8>>): Field {
    match port case None => Absent case Some(t) => Part(p + 1, |t|)
  }

  function ServerParts(i: nat, v: Authority, u: Fields): Fields {
    var h := i + |UserText(v.user)|;
    u.(userinfo := if v.user.Some? then Part(i, |v.user.value|) else Absent,
       host := NameField(h, v.name), port := PortField(h + |NameText(v.name)|, v.port))
  }

  function PartsOf(u: Url): Fields {
    match u
    case Absolute(schema, server, rest) =>
      var i := |schema| + 3;
      RestFields(i + |ServerText(server)|, rest, ServerParts(i, server, NoFields.(schema := Part(0, |schema|))))
    case Relative(rest) => RestFields(0, rest, NoFields)
    case Connect(server, rest) => RestFields(|ServerText(server)|, rest, ServerParts(0, server, NoFields))
  }

  function PortNumber(u: Url): nat {
    if u.Relative? || u.server.port.None? then 0 else JsonDigits.Value(u.server.port.value)
  }

  // ---- spans

  /** The suffix at i is t. */
  lemma Suffix(s: seq<u8>, i: nat, a: seq<u8>, b: seq<u8>)
    requires i <= |s| && s[i..] == a + b
    ensures i + |a| <= |s| && s[i..i + |a|] == a && s[i + |a|..] == b
    ensures a != [] ==> s[i] == a[0]
    ensures b != [] ==> i + |a| < |s| && s[i + |a|] == b[0]
    ensures b == [] ==> i + |a| == |s|
  {
    var t := s[i..];
    assert t[..|a|] == a && t[|a|..] == b;
    assert s[i..i + |a|] == t[..|a|] && s[i + |a|..] == t[|a|..];
    if b != [] { assert s[i + |a|..][0] == s[i + |a|]; }
    if a != [] { assert t[0] == s[i]; }
  }

  /** Characters of a class up to one that is none. */
  lemma {:induction false} SpanOver(s: seq<u8>, i: nat, a: seq<u8>, P: u8 -> bool)
    requires i + |a| <= |s| && s[i..i + |a|] == a && All(a, P) && (i + |a| < |s| ==> !P(s[i + |a|]))
    ensures Span(s, i, P) == i + |a|
    decreases |a|
  {
    hide Span;
    SpanStep(s, i, P);
    if a != [] {
      assert s[i] == s[i..i + |a|][0] == a[0];
      assert s[i + 1..i + 1 + |a[1..]|] == a[1..];
      SpanOver(s, i + 1, a[1..], P);
    }
  }

  /** The characters of a span. */
  lemma SpanAll(s: seq<u8>, i: nat, P: u8 -> bool)
    requires i <= |s|
    ensures All(s[i..Span(s, i, P)], P) && s[i..] == s[i..Span(s, i, P)] + s[Span(s, i, P)..]
  {
  }

  // ---- what follows the server part, read

  lemma AnchorRead(s: seq<u8>, i: nat, u: Fields, x: Anchor)
    requires i <= |s| && s[i..] == Signs(x.more) + x.text
    requires ProperAnchor(x)
    ensures FragmentAt(s, i, u) == Some(u.(fragment := Part(i + x.more, |x.text|)))
  {
    hide Span, All, FragmentChar, IsHash, AnchorByte, Signs;
    var g := i + x.more;
    SignsAre(x.more);
    Suffix(s, i, Signs(x.more), x.text);
    AnchorBytes(x.text);
    if x.text != [] { NotHash(x.text[0]); }
    SpanOver(s, i, Signs(x.more), IsHash);
    assert s[g..g + |x.text|] == x.text;
    SpanOver(s, g, x.text, FragmentChar);
  }

  lemma SignsAre(n: nat)
    ensures |Signs(n)| == n && All(Signs(n), IsHash)
  {
  }

  lemma NotHash(c: u8)
    ensures IsHash(c) <==> c == 0x23
  {
  }

  lemma AnchorBytes(t: seq<u8>)
    ensures All(t, AnchorByte) <==> All(t, FragmentChar)
    ensures All(t, QueryByte) <==> All(t, QueryChar)
    ensures All(t, UrlByte) <==> All(t, IsUrlChar)
  {
    hide UrlByte, IsUrlChar;
    forall k | 0 <= k < |t| ensures UrlByte(t[k]) <==> IsUrlChar(t[k]) { UrlByteIs(t[k]); }
  }

  lemma QuerySpan(s: seq<u8>, i: nat, q: seq<u8>, more: seq<u8>)
    requires i <= |s| && s[i..] == q + more && All(q, QueryByte) && (more != [] ==> more[0] == 0x23)
    ensures Span(s, i, QueryChar) == i + |q| <= |s| && s[i + |q|..] == more
    ensures if more == [] then i + |q| == |s| else i + |q| < |s| && s[i + |q|] == more[0]
  {
    hide Span, UrlByte, IsUrlChar;
    Suffix(s, i, q, more);
    AnchorBytes(q);
    NotUrlChars();
    SpanOver(s, i, q, QueryChar);
  }

  lemma QueryAnchor(s: seq<u8>, i: nat, u: Fields, q: seq<u8>, x: Anchor)
    requires i <= |s| && s[i..] == q + AnchorText(Some(x)) && All(q, QueryByte) && ProperAnchor(x)
    ensures QueryAt(s, i, u) ==
      Some(u.(query := Part(i, |q|), fragment := Part(i + |q| + 1 + x.more, |x.text|)))
  {
    hide Span, FragmentAt, All, Signs;
    QuerySpan(s, i, q, AnchorText(Some(x)));
    var r := i + |q|;
    AfterByte(s, r, 0x23, Signs(x.more) + x.text);
    AnchorRead(s, r + 1, u.(query := RunOf(i, r)), x);
  }

  lemma QueryOnly(s: seq<u8>, i: nat, u: Fields, q: seq<u8>)
    requires i <= |s| && s[i..] == q && All(q, QueryByte)
    ensures QueryAt(s, i, u) == Some(u.(query := Part(i, |q|)))
  {
    hide Span, FragmentAt, All;
    assert q == q + [];
    QuerySpan(s, i, q, []);
  }

  lemma QueryRead(s: seq<u8>, i: nat, u: Fields, q: seq<u8>, a: Option<Anchor>)
    requires i <= |s| && s[i..] == q + AnchorText(a) && All(q, QueryByte) && (a.Some? ==> ProperAnchor(a.value))
    ensures QueryAt(s, i, u) == Some(u.(query := Part(i, |q|),
        fragment := if a.Some? then Part(i + |q| + 1 + a.value.more, |a.value.text|) else u.fragment))
  {
    hide QueryAt, All, ProperAnchor;
    if a.Some? {
      QueryAnchor(s, i, u, q, a.value);
    } else {
      assert q + [] == q;
      QueryOnly(s, i, u, q);
    }
  }

  lemma PathSpan(s: seq<u8>, i: nat, p: seq<u8>, more: seq<u8>)
    requires i <= |s| && s[i..] == p + more && p != [] && All(p, UrlByte)
    requires more != [] ==> more[0] == 0x3f || more[0] == 0x23
    ensures i < |s| && Span(s, i + 1, IsUrlChar) == i + |p| <= |s| && s[i + |p|..] == more
    ensures if more == [] then i + |p| == |s| else i + |p| < |s| && s[i + |p|] == more[0]
  {
    hide Span, UrlByte, IsUrlChar;
    Suffix(s, i, p, more);
    AnchorBytes(p);
    NotUrlChars();
    assert s[i + 1..i + 1 + |p[1..]|] == p[1..];
    SpanOver(s, i + 1, p[1..], IsUrlChar);
  }

  lemma PathQuery(s: seq<u8>, i: nat, u: Fields, p: seq<u8>, q: seq<u8>, a: Option<Anchor>)
    requires i <= |s| && s[i..] == p + ([0x3f] + (q + AnchorText(a))) && p != [] && All(p, UrlByte)
    requires All(q, QueryByte) && (a.Some? ==> ProperAnchor(a.value))
    ensures i < |s| && PathAt(s, i, u) ==
      Some(u.(path := Part(i, |p|), query := Part(i + |p| + 1, |q|),
        fragment := if a.Some? then Part(i + |p| + 1 + |q| + 1 + a.value.more, |a.value.text|) else u.fragment))
  {
    hide Span, FragmentAt, QueryAt, All, AnchorText, ProperAnchor;
    var r := i + |p|;
    PathSpan(s, i, p, [0x3f] + (q + AnchorText(a)));
    AfterByte(s, r, 0x3f, q + AnchorText(a));
    QueryRead(s, r + 1, u.(path := RunOf(i, r)), q, a);
  }

  lemma PathAnchor(s: seq<u8>, i: nat, u: Fields, p: seq<u8>, x: Anchor)
    requires i <= |s| && s[i..] == p + AnchorText(Some(x)) && p != [] && All(p, UrlByte) && ProperAnchor(x)
    ensures i < |s| && PathAt(s, i, u) ==
      Some(u.(path := Part(i, |p|), fragment := Part(i + |p| + 1 + x.more, |x.text|)))
  {
    hide Span, FragmentAt, QueryAt, All, Signs;
    var r := i + |p|;
    PathSpan(s, i, p, AnchorText(Some(x)));
    AfterByte(s, r, 0x23, Signs(x.more) + x.text);
    AnchorRead(s, r + 1, u.(path := RunOf(i, r)), x);
  }

  /** A path, and what follows it. */
  lemma PathRead(s: seq<u8>, i: nat, u: Fields, rest: Rest)
    requires i <= |s| && s[i..] == RestText(rest) && ProperRest(rest) && rest.path != [] && NoTail(u)
    ensures i < |s| && PathAt(s, i, u) == Some(RestFields(i, rest, u))
  {
    hide Span, PathAt, All, AnchorText;
    var p := rest.path;
    if rest.query.Some? {
      var q := rest.query.value;
      assert RestText(rest) == p + ([0x3f] + (q + AnchorText(rest.anchor)));
      PathQuery(s, i, u, p, q, rest.anchor);
    } else if rest.anchor.Some? {
      assert RestText(rest) == p + AnchorText(rest.anchor);
      PathAnchor(s, i, u, p, rest.anchor.value);
    } else {
      PathOnly(s, i, u, rest);
    }
  }

  lemma PathOnly(s: seq<u8>, i: nat, u: Fields, rest: Rest)
    requires i <= |s| && s[i..] == RestText(rest) && ProperRest(rest) && rest.path != [] && NoTail(u)
    requires rest.query.None? && rest.anchor.None?
    ensures i < |s| && PathAt(s, i, u) == Some(RestFields(i, rest, u))
  {
    hide Span, All;
    PathSpan(s, i, rest.path, []);
  }

  lemma AfterByte(s: seq<u8>, i: nat, b: u8, t: seq<u8>)
    requires i <= |s| && s[i..] == [b] + t
    ensures i < |s| && s[i] == b && s[i + 1..] == t
  {
    Suffix(s, i, [b], t);
  }

  lemma NotUrlChars()
    ensures !IsUrlChar(0x3f) && !IsUrlChar(0x23)
  {
  }

  /** Behind the server part. */
  lemma RestRead(s: seq<u8>, e: nat, u: Fields, rest: Rest)
    requires e <= |s| && s[e..] == RestText(rest) && BehindServer(rest) && NoTail(u)
    ensures AfterServer(s, e, u) == Some(RestFields(e, rest, u))
  {
    hide PathAt, QueryAt, All, AnchorText, ProperAnchor;
    if rest.path != [] {
      PathRead(s, e, u, rest);
      Suffix(s, e, rest.path, QueryText(rest.query) + AnchorText(rest.anchor));
    } else if rest.query.Some? {
      var q := rest.query.value;
      assert RestText(rest) == [0x3f] + (q + AnchorText(rest.anchor));
      AfterByte(s, e, 0x3f, q + AnchorText(rest.anchor));
      QueryRead(s, e + 1, u, q, rest.anchor);
    } else {
      NoRest(rest);
    }
  }

  lemma NoRest(rest: Rest)
    requires rest.path == [] && rest.query.None? && rest.anchor.None?
    ensures RestText(rest) == []
  {
  }

  // ---- the server part, read

  lemma PortRead(r: seq<u8>, p: nat, u: Fields, port: Option<seq<u8>>)
    requires p <= |r| && r[p..] == PortText(port) && u.port.Absent?
    requires port.Some? ==> port.value != [] && All(port.value, Figure)
    ensures PortAt(r, p, u) == Some(u.(port := PortField(p, port)))
  {
    hide Span, All;
    if port.Some? {
      var t := port.value;
      AfterByte(r, p, 0x3a, t);
      ClassBytes(t);
      assert r[p + 1..p + 1 + |t|] == t;
      SpanOver(r, p + 1, t, IsNum);
    }
  }

  /** The classes, for all bytes of a text. */
  lemma ClassBytes(t: seq<u8>)
    ensures All(t, Figure) <==> All(t, IsNum)
    ensures All(t, Letter) <==> All(t, IsAlpha)
    ensures All(t, NameByte) <==> All(t, IsHostChar)
    ensures All(t, AddressByte) <==> All(t, IsV6Char)
    ensures All(t, ZoneByte) <==> All(t, IsZoneChar)
    ensures All(t, UserByte) <==> All(t, IsUserinfo)
  {
    forall c: u8
      ensures Figure(c) == IsNum(c) && Letter(c) == IsAlpha(c) && NameByte(c) == IsHostChar(c)
      ensures AddressByte(c) == IsV6Char(c) && ZoneByte(c) == IsZoneChar(c) && UserByte(c) == IsUserinfo(c)
    {
      LettersAre(c);
      ClassesAre(c);
    }
    hide Figure, IsNum, Letter, IsAlpha, NameByte, IsHostChar, AddressByte, IsV6Char, ZoneByte, IsZoneChar, UserByte,
      IsUserinfo;
  }

  /** None of the delimiters is a character of the classes before them. */
  lemma Delimiters()
    ensures !IsHostChar(0x3a) && !IsHostChar(0x5b) && !IsV6Char(0x25) && !IsV6Char(0x5d) && !IsZoneChar(0x5d)
    ensures !IsUserinfo(0x40) && !IsNum(0x3a)
  {
  }

  lemma PlainRead(r: seq<u8>, h: nat, u: Fields, t: seq<u8>, port: Option<seq<u8>>)
    requires h <= |r| && r[h..] == t + PortText(port) && t != [] && All(t, NameByte) && u.port.Absent?
    requires port.Some? ==> port.value != [] && All(port.value, Figure)
    ensures NameAt(r, h, u) == Some(u.(host := Run(h, |t|), port := PortField(h + |t|, port)))
  {
    hide Span, All, PortAt, IsHostChar;
    ClassBytes(t);
    Delimiters();
    Suffix(r, h, t, PortText(port));
    FirstIs(t, IsHostChar);
    SpanOver(r, h, t, IsHostChar);
    PortRead(r, h + |t|, u.(host := Run(h, |t|)), port);
  }

  lemma FirstIs(t: seq<u8>, P: u8 -> bool)
    requires t != [] && All(t, P)
    ensures P(t[0])
  {
  }

  lemma ClosedRead(r: seq<u8>, h: nat, z: nat, u: Fields, port: Option<seq<u8>>)
    requires h < z <= |r| && r[z..] == [0x5d] + PortText(port) && u.port.Absent?
    requires port.Some? ==> port.value != [] && All(port.value, Figure)
    ensures ClosedAt(r, h, z, u) == Some(u.(host := Run(h + 1, z - (h + 1)), port := PortField(z + 1, port)))
  {
    hide All, PortAt;
    AfterByte(r, z, 0x5d, PortText(port));
    PortRead(r, z + 1, u.(host := Run(h + 1, z - (h + 1))), port);
  }

  /** Characters of a class from i on, then a byte that is none, then the rest. */
  lemma SpanTo(r: seq<u8>, i: nat, t: seq<u8>, P: u8 -> bool, b: u8, more: seq<u8>) returns (j: nat)
    requires i <= |r| && r[i..] == t + ([b] + more) && All(t, P) && !P(b)
    ensures j == i + |t| < |r| && Span(r, i, P) == j && r[j] == b && r[j..] == [b] + more
  {
    hide Span, All;
    j := i + |t|;
    Suffix(r, i, t, [b] + more);
    SpanOver(r, i, t, P);
  }

  lemma AddressRead(r: seq<u8>, h: nat, u: Fields, t: seq<u8>, port: Option<seq<u8>>)
    requires h <= |r| && r[h..] == [0x5b] + (t + ([0x5d] + PortText(port))) && t != [] && All(t, AddressByte)
    requires u.port.Absent? && (port.Some? ==> port.value != [] && All(port.value, Figure))
    ensures NameAt(r, h, u) == Some(u.(host := Run(h + 1, |t|), port := PortField(h + |t| + 2, port)))
  {
    hide Span, All, ClosedAt, IsV6Char, IsHostChar, PortText, PortField, AddressByte, Figure;
    ClassBytes(t);
    Delimiters();
    var p := PortText(port);
    AfterByte(r, h, 0x5b, t + ([0x5d] + p));
    var v := SpanTo(r, h + 1, t, IsV6Char, 0x5d, p);
    ClosedRead(r, h, v, u, port);
  }

  lemma ZoneRead(r: seq<u8>, h: nat, u: Fields, t: seq<u8>, z: seq<u8>, port: Option<seq<u8>>)
    requires h <= |r| && r[h..] == [0x5b] + (t + ([0x25] + (z + ([0x5d] + PortText(port)))))
    requires t != [] && All(t, AddressByte) && z != [] && All(z, ZoneByte)
    requires u.port.Absent? && (port.Some? ==> port.value != [] && All(port.value, Figure))
    ensures NameAt(r, h, u) ==
      Some(u.(host := Run(h + 1, |t| + 1 + |z|), port := PortField(h + |t| + |z| + 3, port)))
  {
    hide Span, All, ClosedAt, IsV6Char, IsHostChar, IsZoneChar, PortText, PortField, AddressByte, ZoneByte, Figure;
    ClassBytes(t);
    ClassBytes(z);
    Delimiters();
    var p := PortText(port);
    AfterByte(r, h, 0x5b, t + ([0x25] + (z + ([0x5d] + p))));
    var v := SpanTo(r, h + 1, t, IsV6Char, 0x25, z + ([0x5d] + p));
    AfterByte(r, v, 0x25, z + ([0x5d] + p));
    var w := SpanTo(r, v + 1, z, IsZoneChar, 0x5d, p);
    ClosedRead(r, h, w, u, port);
  }

  lemma NameRead(r: seq<u8>, h: nat, u: Fields, n: Name, port: Option<seq<u8>>)
    requires h <= |r| && r[h..] == NameText(n) + PortText(port) && ProperName(n) && u.port.Absent?
    requires port.Some? ==> port.value != [] && All(port.value, Figure)
    ensures NameAt(r, h, u) == Some(u.(host := NameField(h, n), port := PortField(h + |NameText(n)|, port)))
  {
    hide NameAt, All, PortText, NameText, PortField, AddressByte, ZoneByte, NameByte, Figure;
    var p := PortText(port);
    match n
    case Plain(t) =>
      PlainText(t);
      PlainRead(r, h, u, t, port);
    case Address(t, None) =>
      AddressText(t, p);
      AddressRead(r, h, u, t, port);
    case Address(t, Some(z)) =>
      ZoneText(t, z, p);
      ZoneRead(r, h, u, t, z, port);
  }

  lemma AddressText(t: seq<u8>, p: seq<u8>)
    ensures NameText(Address(t, None)) + p == [0x5b] + (t + ([0x5d] + p))
    ensures |NameText(Address(t, None))| == |t| + 2
  {
    var none: seq<u8> := [];
    assert none + [0x5d] == [0x5d];
  }

  lemma ZoneText(t: seq<u8>, z: seq<u8>, p: seq<u8>)
    ensures NameText(Address(t, Some(z))) + p == [0x5b] + (t + ([0x25] + (z + ([0x5d] + p))))
    ensures |NameText(Address(t, Some(z)))| == |t| + |z| + 3
  {
    var b := [0x25] + z + [0x5d];
    assert b + p == [0x25] + (z + ([0x5d] + p));
    assert [0x5b] + (t + b) + p == [0x5b] + (t + (b + p));
  }

  lemma PlainText(t: seq<u8>)
    ensures NameText(Plain(t)) == t
  {
  }

  /** The server part r[a..], taken apart. */
  lemma ServerRead(r: seq<u8>, a: nat, u: Fields, v: Authority)
    requires a <= |r| && r[a..] == ServerText(v) && LooseServer(v) && u.port.Absent? && u.userinfo.Absent?
    ensures HostAt(r, a, v.user.Some?, u) == Some(ServerParts(a, v, u))
  {
    hide NameAt, All, PortText, NameText, Span, IsUserinfo;
    var name := NameText(v.name) + PortText(v.port);
    if v.user.Some? {
      var t := v.user.value;
      ClassBytes(t);
      Delimiters();
      assert ServerText(v) == t + ([0x40] + name);
      Suffix(r, a, t, [0x40] + name);
      SpanOver(r, a, t, IsUserinfo);
      AfterByte(r, a + |t|, 0x40, name);
      NameRead(r, a + |t| + 1, u.(userinfo := RunOf(a, a + |t|)), v.name, v.port);
    } else {
      assert ServerText(v) == name;
      NameRead(r, a, u, v.name, v.port);
    }
  }

  // ---- the whole, read

  /** A character of a server part that is no @. */
  predicate Ordinary(c: u8) { ServerCharacter(c) && c != 0x40 }

  lemma OrdinaryText(a: seq<u8>, b: seq<u8>)
    ensures All(a + b, Ordinary) <==> All(a, Ordinary) && All(b, Ordinary)
  {
    hide Ordinary;
    forall k | 0 <= k < |b| ensures (a + b)[|a| + k] == b[k] { }
    if All(a + b, Ordinary) {
      forall k | 0 <= k < |a| ensures Ordinary(a[k]) { assert (a + b)[k] == a[k]; }
      forall k | 0 <= k < |b| ensures Ordinary(b[k]) { assert (a + b)[|a| + k] == b[k]; }
    }
  }

  lemma OrdinaryClasses(c: u8)
    ensures UserByte(c) || NameByte(c) || AddressByte(c) || ZoneByte(c) || Figure(c) ==> Ordinary(c)
    ensures c == 0x5b || c == 0x5d || c == 0x25 || c == 0x3a ==> Ordinary(c)
  {
    ClassesAre(c);
    LettersAre(c);
    hide UserByte, NameByte, AddressByte, ZoneByte, Figure;
  }

  lemma OrdinaryAll(t: seq<u8>)
    requires All(t, UserByte) || All(t, NameByte) || All(t, AddressByte) || All(t, ZoneByte) || All(t, Figure)
    ensures All(t, Ordinary)
  {
    hide UserByte, NameByte, AddressByte, ZoneByte, Figure, Ordinary;
    forall k | 0 <= k < |t| ensures Ordinary(t[k]) { OrdinaryClasses(t[k]); }
  }

  lemma OrdinaryByte(c: u8)
    requires c == 0x5b || c == 0x5d || c == 0x25 || c == 0x3a
    ensures All([c], Ordinary)
  {
  }

  lemma OrdinaryName(n: Name)
    requires ProperName(n)
    ensures All(NameText(n), Ordinary)
  {
    hide All, Ordinary;
    OrdinaryByte(0x5b);
    OrdinaryByte(0x5d);
    OrdinaryByte(0x25);
    match n
    case Plain(t) => OrdinaryAll(t);
    case Address(t, None) =>
      OrdinaryAll(t);
      OrdinaryText([], [0x5d]);
      OrdinaryText(t, [] + [0x5d]);
      assert [] + [0x5d] == [0x5d as u8];
      OrdinaryText([0x5b], t + ([] + [0x5d]));
    case Address(t, Some(z)) =>
      OrdinaryAll(t);
      OrdinaryAll(z);
      OrdinaryText([0x25], z);
      OrdinaryText([0x25] + z, [0x5d]);
      OrdinaryText(t, [0x25] + z + [0x5d]);
      OrdinaryText([0x5b], t + ([0x25] + z + [0x5d]));
  }

  lemma OrdinaryPort(port: Option<seq<u8>>)
    requires port.Some? ==> All(port.value, Figure)
    ensures All(PortText(port), Ordinary)
  {
    hide Ordinary, Figure;
    if port.Some? {
      OrdinaryByte(0x3a);
      OrdinaryAll(port.value);
      OrdinaryText([0x3a], port.value);
    }
  }

  /** The characters of the server part, and its only @. */
  lemma ServerBytes(v: Authority)
    requires LooseServer(v)
    ensures var t := ServerText(v);
      && All(t, ServerCharacter)
      && (v.user.Some? ==> |v.user.value| < |t|)
      && forall k | 0 <= k < |t| :: t[k] == 0x40 <==> v.user.Some? && k == |v.user.value|
  {
    var name := NameText(v.name) + PortText(v.port);
    OrdinaryName(v.name);
    OrdinaryPort(v.port);
    OrdinaryText(NameText(v.name), PortText(v.port));
    hide NameText, PortText, ProperName, Figure;
    if v.user.Some? { OrdinaryAll(v.user.value); }
    hide UserByte, IsUserinfo;
    assert ServerText(v) == UserText(v.user) + name;
  }

  lemma AtsAre(s: seq<u8>, i: nat, e: nat, v: Authority)
    requires i <= e <= |s| && s[i..e] == ServerText(v) && LooseServer(v)
    ensures !TwoAts(s, i, e) && (SomeAt(s, i, e) <==> v.user.Some?) && All(s[i..e], ServerCharacter)
  {
    hide ServerText, LooseServer, ServerCharacter;
    ServerBytes(v);
    var t := ServerText(v);
    forall k | i <= k < e ensures s[k] == t[k - i] { assert s[i..e][k - i] == s[k]; }
    if v.user.Some? { assert s[i + |v.user.value|] == AtSign; }
  }

  /** What follows the server part begins with a slash or a question mark. */
  lemma RestFirst(r: Rest)
    requires BehindServer(r)
    ensures RestText(r) != [] ==> RestText(r)[0] == 0x2f || RestText(r)[0] == 0x3f
  {
    hide ProperRest;
  }

  lemma NotServer()
    ensures !ServerCharacter(0x2f) && !ServerCharacter(0x3f)
  {
  }

  lemma ServerAtRead(s: seq<u8>, i: nat, u: Fields, v: Authority, rest: Rest)
    requires i <= |s| && s[i..] == ServerText(v) + RestText(rest) && LooseServer(v) && BehindServer(rest) && NoTail(u)
    ensures var e := i + |ServerText(v)|;
      && e <= |s| && ServerText(v) != [] && s[i..e] == ServerText(v)
      && ServerAt(s, i, u) == Some((RestFields(e, rest, u.(host := Run(i, e - i))), v.user.Some?))
  {
    hide ServerText, RestText, LooseServer, BehindServer, AfterServer, RestFields, Span, TwoAts, SomeAt, All,
      ServerCharacter;
    var (t, more) := (ServerText(v), RestText(rest));
    var e := i + |t|;
    Suffix(s, i, t, more);
    AtsAre(s, i, e, v);
    RestFirst(rest);
    NotServer();
    SpanOver(s, i, t, ServerCharacter);
    SomeServer(v);
    RestRead(s, e, u.(host := Run(i, e - i)), rest);
  }

  lemma SomeServer(v: Authority)
    requires LooseServer(v)
    ensures ServerText(v) != [] && NameText(v.name) != []
  {
  }

  /** The fields of a server part found at i, and of what follows it. */
  lemma WithHostRead(s: seq<u8>, i: nat, u: Fields, v: Authority, rest: Rest)
    requires i <= |s| && s[i..] == ServerText(v) + RestText(rest) && LooseServer(v) && BehindServer(rest)
    requires NoTail(u) && u.host.Absent? && u.port.Absent? && u.userinfo.Absent?
    ensures var e := i + |ServerText(v)|;
      && e <= |s| && ServerText(v) != []
      && WithHost(s, RestFields(e, rest, u.(host := Run(i, e - i))), v.user.Some?)
         == Some(RestFields(e, rest, ServerParts(i, v, u)))
  {
    hide ServerText, RestText, LooseServer, BehindServer, HostAt, NoTail;
    var t := ServerText(v);
    var e := i + |t|;
    Suffix(s, i, t, RestText(rest));
    SomeServer(v);
    var found := RestFields(e, rest, u.(host := Run(i, e - i)));
    var w := found.(host := Run(i, 0));
    assert s[..e][i..] == s[i..e];
    ServerRead(s[..e], i, w, v);
    hide NameField, PortField;
    assert ServerParts(i, v, w) == RestFields(e, rest, ServerParts(i, v, u));
  }

  /** The digits of the port, found again. */
  lemma PortSlice(s: seq<u8>, i: nat, v: Authority, more: seq<u8>)
    requires i <= |s| && s[i..] == ServerText(v) + more && LooseServer(v) && v.port.Some?
    ensures Slice(s, PortField(i + |UserText(v.user)| + |NameText(v.name)|, v.port)) == v.port.value
  {
    hide UserText, NameText, JsonDigits.Value, All, Figure, ProperName;
    var (a, b, t) := (UserText(v.user), NameText(v.name), v.port.value);
    Nested(a, b, [0x3a], t, more);
    Behind(s, i, a, b + ([0x3a] + (t + more)));
    Behind(s, i + |a|, b, [0x3a] + (t + more));
    Behind(s, i + |a| + |b|, [0x3a], t + more);
    Behind(s, i + |a| + |b| + 1, t, more);
  }

  lemma Nested(a: seq<u8>, b: seq<u8>, c: seq<u8>, d: seq<u8>, e: seq<u8>)
    ensures a + (b + (c + d)) + e == a + (b + (c + (d + e)))
  {
    assert c + d + e == c + (d + e);
    assert b + (c + d) + e == b + (c + d + e);
  }

  lemma Behind(s: seq<u8>, i: nat, a: seq<u8>, b: seq<u8>)
    requires i <= |s| && s[i..] == a + b
    ensures i + |a| <= |s| && s[i..i + |a|] == a && s[i + |a|..] == b
  {
    Suffix(s, i, a, b);
  }

  /** The port is its digits' value, unless that is too large. */
  lemma WithPortRead(s: seq<u8>, i: nat, v: Authority, more: seq<u8>, u: Fields)
    requires i <= |s| && s[i..] == ServerText(v) + more && LooseServer(v)
    requires u.port == PortField(i + |UserText(v.user)| + |NameText(v.name)|, v.port)
    ensures WithPort(s, u) ==
      if v.port.None? then Some((u, 0))
      else if ProperServer(v) then Some((u, JsonDigits.Value(v.port.value))) else None
  {
    hide UserText, NameText, JsonDigits.Value, ServerText, Slice, All, ProperName;
    if v.port.Some? { PortSlice(s, i, v, more); }
  }

  /** A schema of letters, :// and what follows. */
  lemma SchemaRead(s: seq<u8>, schema: seq<u8>, more: seq<u8>)
    requires s == schema + ([0x3a, 0x2f, 0x2f] + more) && schema != [] && All(schema, Letter) && more != []
    ensures var i := |schema| + 3;
      i <= |s| && s[i..] == more && UrlAt(s, false) == ServerAt(s, i, NoFields.(schema := Run(0, |schema|)))
  {
    hide ServerAt, PathAt, Letter, IsAlpha, Span;
    var e := |schema|;
    assert s[0..] == s;
    ClassBytes(schema);
    NotLetters();
    FirstIs(schema, IsAlpha);
    assert [0x3a, 0x2f, 0x2f] + more == [0x3a] + ([0x2f, 0x2f] + more);
    var e' := SpanTo(s, 0, schema, IsAlpha, 0x3a, [0x2f, 0x2f] + more);
    var rest := s[e..];
    assert rest == [0x3a, 0x2f, 0x2f] + more;
    assert rest[3..] == more && s[e + 3..] == rest[3..];
  }

  lemma NotLetters()
    ensures !IsAlpha(0x3a) && !IsAlpha(0x2f) && !IsAlpha(0x2a)
  {
  }

  /** http_parser_parse_url accepts a URL put together from proper parts, and its fields are the parts. */
  lemma UrlRead(u: Url)
    requires Proper(u)
    ensures UrlFields(UrlText(u), u.Connect?) == Some((PartsOf(u), PortNumber(u)))
  {
    match u
    case Absolute(schema, server, rest) => AbsoluteRead(schema, server, rest);
    case Relative(rest) => RelativeRead(rest);
    case Connect(server, rest) => ConnectRead(server, rest);
  }

  lemma RelativeRead(rest: Rest)
    requires Proper(Relative(rest))
    ensures UrlFields(RestText(rest), false) == Some((RestFields(0, rest, NoFields), 0))
  {
    hide PathAt, ProperRest;
    var s := RestText(rest);
    assert s[0..] == s;
    PathRead(s, 0, NoFields, rest);
    PathFirst(rest);
    hide RestText;
  }

  lemma PathFirst(rest: Rest)
    requires rest.path != [] && ProperRest(rest)
    ensures RestText(rest) != [] && (RestText(rest)[0] == 0x2f || RestText(rest)[0] == 0x2a)
  {
  }

  lemma AbsoluteRead(schema: seq<u8>, server: Authority, rest: Rest)
    requires Proper(Absolute(schema, server, rest))
    ensures var u := Absolute(schema, server, rest); UrlFields(UrlText(u), false) == Some((PartsOf(u), PortNumber(u)))
  {
    hide UrlAt, WithHost, WithPort, ServerText, RestText, LooseServer, BehindServer, RestFields, ServerAt, All,
      JsonDigits.Value;
    var (i, more) := (|schema| + 3, ServerText(server) + RestText(rest));
    var s := schema + ([0x3a, 0x2f, 0x2f] + more);
    var f := NoFields.(schema := Run(0, |schema|));
    SomeServer(server);
    SchemaRead(s, schema, more);
    ServerAtRead(s, i, f, server, rest);
    WithHostRead(s, i, f, server, rest);
    PartsKeep(i, i + |ServerText(server)|, server, rest, f);
    WithPortRead(s, i, server, RestText(rest), PartsOf(Absolute(schema, server, rest)));
  }

  lemma PartsKeep(i: nat, e: nat, v: Authority, rest: Rest, u: Fields)
    ensures var w := RestFields(e, rest, ServerParts(i, v, u));
      && w.port == PortField(i + |UserText(v.user)| + |NameText(v.name)|, v.port)
      && w.schema == u.schema && w.host == ServerParts(i, v, u).host && w.userinfo == ServerParts(i, v, u).userinfo
  {
    hide PortField, NameField, UserText, NameText;
  }

  lemma ConnectRead(server: Authority, rest: Rest)
    requires Proper(Connect(server, rest))
    ensures var u := Connect(server, rest); UrlFields(UrlText(u), true) == Some((PartsOf(u), PortNumber(u)))
  {
    hide WithHost, WithPort, ServerText, RestText, LooseServer, BehindServer, RestFields, ServerAt, All,
      JsonDigits.Value, HostAndPort;
    var s := ServerText(server) + RestText(rest);
    var w := PartsOf(Connect(server, rest));
    SomeServer(server);
    assert s[0..] == s;
    ServerAtRead(s, 0, NoFields, server, rest);
    WithHostRead(s, 0, NoFields, server, rest);
    PartsKeep(0, |ServerText(server)|, server, rest, NoFields);
    ConnectParts(server, rest);
    WithPortRead(s, 0, server, RestText(rest), w);
  }

  lemma ConnectParts(server: Authority, rest: Rest)
    requires Proper(Connect(server, rest))
    ensures HostAndPort(PartsOf(Connect(server, rest)))
  {
    hide ServerText, All, UserText, JsonDigits.Value;
    NameParts(server.name);
  }

  lemma NameParts(n: Name)
    requires ProperName(n)
    ensures forall h: nat :: NameField(h, n).Run?
  {
    if n.Address? {
      if n.zone.Some? { ZoneText(n.address, n.zone.value, []); } else { AddressText(n.address, []); }
    }
  }

  // ---- and nothing else

  lemma SpanBytes(s: seq<u8>, i: nat, P: u8 -> bool, Q: u8 -> bool) returns (t: seq<u8>)
    requires i <= |s| && forall c :: P(c) <==> Q(c)
    ensures t == s[i..Span(s, i, P)] && All(t, Q) && s[i..] == t + s[Span(s, i, P)..] && |t| == Span(s, i, P) - i
  {
    SpanAll(s, i, P);
    t := s[i..Span(s, i, P)];
  }

  lemma ByteBehind(s: seq<u8>, i: nat)
    requires i < |s|
    ensures s[i..] == [s[i]] + s[i + 1..]
  {
  }

  lemma UrlBytesSame()
    ensures forall c :: IsUrlChar(c) <==> UrlByte(c)
    ensures forall c :: QueryChar(c) <==> QueryByte(c)
    ensures forall c :: FragmentChar(c) <==> AnchorByte(c)
  {
    hide IsUrlChar, UrlByte;
    forall c ensures IsUrlChar(c) <==> UrlByte(c) { UrlByteIs(c); }
  }

  lemma HostBytesSame()
    ensures forall c :: IsNum(c) <==> Figure(c)
    ensures forall c :: IsAlpha(c) <==> Letter(c)
    ensures forall c :: IsHostChar(c) <==> NameByte(c)
    ensures forall c :: IsV6Char(c) <==> AddressByte(c)
    ensures forall c :: IsZoneChar(c) <==> ZoneByte(c)
    ensures forall c :: IsUserinfo(c) <==> UserByte(c)
  {
    forall c: u8
      ensures Figure(c) == IsNum(c) && Letter(c) == IsAlpha(c) && NameByte(c) == IsHostChar(c)
      ensures AddressByte(c) == IsV6Char(c) && ZoneByte(c) == IsZoneChar(c) && UserByte(c) == IsUserinfo(c)
    {
      LettersAre(c);
      ClassesAre(c);
    }
    hide Figure, IsNum, Letter, IsAlpha, NameByte, IsHostChar, AddressByte, IsV6Char, ZoneByte, IsZoneChar, UserByte,
      IsUserinfo;
  }

  lemma AnchorOf(s: seq<u8>, i: nat, u: Fields) returns (x: Anchor)
    requires i <= |s| && FragmentAt(s, i, u).Some?
    ensures ProperAnchor(x) && s[i..] == Signs(x.more) + x.text
  {
    hide FragmentChar, AnchorByte, IsUrlChar, UrlByte;
    UrlBytesSame();
    var g := Span(s, i, IsHash);
    var t := SpanBytes(s, g, FragmentChar, AnchorByte);
    hide Span, All;
    x := Anchor(g - i, t);
    SpanAll(s, i, IsHash);
    assert s[|s|..] == [] && t + [] == t;
    AllSigns(s[i..g]);
    if t != [] { assert t[0] == s[g]; }
  }

  lemma AllSigns(t: seq<u8>)
    requires All(t, IsHash)
    ensures t == Signs(|t|)
  {
  }

  lemma QueryOf(s: seq<u8>, i: nat, u: Fields) returns (q: seq<u8>, a: Option<Anchor>)
    requires i <= |s| && QueryAt(s, i, u).Some?
    ensures All(q, QueryByte) && (a.Some? ==> ProperAnchor(a.value)) && s[i..] == q + AnchorText(a)
  {
    hide QueryChar, QueryByte, IsUrlChar, UrlByte, Span, FragmentAt, All, Signs;
    UrlBytesSame();
    var r := Span(s, i, QueryChar);
    q := SpanBytes(s, i, QueryChar, QueryByte);
    a := None;
    if r < |s| {
      var x := AnchorOf(s, r + 1, u.(query := RunOf(i, r)));
      ByteBehind(s, r);
      a := Some(x);
    }
  }

  lemma PathOf(s: seq<u8>, i: nat, u: Fields) returns (rest: Rest)
    requires i < |s| && (s[i] == 0x2f || s[i] == 0x2a) && PathAt(s, i, u).Some?
    ensures ProperRest(rest) && rest.path != [] && rest.path[0] == s[i] && s[i..] == RestText(rest)
  {
    hide QueryByte, IsUrlChar, UrlByte, Span, FragmentAt, QueryAt, ProperAnchor, All, Signs;
    UrlBytesSame();
    var r := Span(s, i + 1, IsUrlChar);
    var t := SpanBytes(s, i + 1, IsUrlChar, UrlByte);
    ByteBehind(s, i);
    PathStart(s[i], t);
    var p := [s[i]] + t;
    assert s[i..] == p + s[r..];
    var v := u.(path := RunOf(i, r));
    rest := Rest(p, None, None);
    if r < |s| {
      ByteBehind(s, r);
      if s[r] == Question {
        var q, a := QueryOf(s, r + 1, v);
        rest := Rest(p, Some(q), a);
        QueryBehind(q, a, s[r + 1..]);
      } else {
        var x := AnchorOf(s, r + 1, v);
        rest := Rest(p, None, Some(x));
        AnchorBehind(x, s[r + 1..]);
      }
    } else {
      assert s[r..] == [];
    }
  }

  lemma PathStart(c: u8, t: seq<u8>)
    requires (c == 0x2f || c == 0x2a) && All(t, UrlByte)
    ensures All([c] + t, UrlByte)
  {
    UrlByteIs(c);
    hide UrlByte;
  }

  lemma QueryBehind(q: seq<u8>, a: Option<Anchor>, more: seq<u8>)
    requires more == q + AnchorText(a)
    ensures [0x3f] + more == QueryText(Some(q)) + AnchorText(a)
  {
    hide AnchorText;
  }

  lemma AnchorBehind(x: Anchor, more: seq<u8>)
    requires more == Signs(x.more) + x.text
    ensures [0x23] + more == QueryText(None) + AnchorText(Some(x))
  {
  }

  lemma RestOf(s: seq<u8>, e: nat, u: Fields) returns (rest: Rest)
    requires e <= |s| && AfterServer(s, e, u).Some?
    ensures BehindServer(rest) && s[e..] == RestText(rest)
  {
    hide PathAt, QueryAt, All, ProperAnchor, RestText;
    if e == |s| {
      rest := Rest([], None, None);
      NoRest(rest);
    } else if s[e] == Slash {
      rest := PathOf(s, e, u);
    } else {
      var q, a := QueryOf(s, e + 1, u);
      ByteBehind(s, e);
      rest := Rest([], Some(q), a);
      QueryBehind(q, a, s[e + 1..]);
      NoPath(q, a);
    }
  }

  lemma NoPath(q: seq<u8>, a: Option<Anchor>)
    ensures RestText(Rest([], Some(q), a)) == QueryText(Some(q)) + AnchorText(a)
  {
  }

  lemma PortOf(r: seq<u8>, p: nat, u: Fields) returns (port: Option<seq<u8>>)
    requires p <= |r| && PortAt(r, p, u).Some?
    ensures r[p..] == PortText(port) && (port.Some? ==> port.value != [] && All(port.value, Figure))
  {
    hide Figure, IsNum, Span;
    HostBytesSame();
    port := None;
    if p < |r| {
      var t := SpanBytes(r, p + 1, IsNum, Figure);
      ByteBehind(r, p);
      assert t + r[|r|..] == t;
      port := Some(t);
    }
  }

  lemma ClosedOf(r: seq<u8>, h: nat, z: nat, u: Fields) returns (port: Option<seq<u8>>)
    requires h < z <= |r| && ClosedAt(r, h, z, u).Some?
    ensures r[z..] == [0x5d] + PortText(port) && (port.Some? ==> port.value != [] && All(port.value, Figure))
  {
    hide PortAt, PortText, All;
    port := PortOf(r, z + 1, u.(host := Run(h + 1, z - (h + 1))));
    ByteBehind(r, z);
  }

  lemma NameOf(r: seq<u8>, h: nat, u: Fields) returns (n: Name, port: Option<seq<u8>>)
    requires h <= |r| && NameAt(r, h, u).Some?
    ensures ProperName(n) && r[h..] == NameText(n) + PortText(port)
    ensures port.Some? ==> port.value != [] && All(port.value, Figure)
  {
    hide Figure, IsNum, NameByte, IsHostChar, AddressByte, IsV6Char, ZoneByte, IsZoneChar, Letter, IsAlpha, UserByte,
      IsUserinfo, Span, PortAt, ClosedAt, PortText, NameText, All;
    HostBytesSame();
    if r[h] != Open {
      var t := SpanBytes(r, h, IsHostChar, NameByte);
      n := Plain(t);
      PlainText(t);
      port := PortOf(r, h + |t|, u.(host := Run(h, |t|)));
    } else {
      n, port := AddressOf(r, h, u);
    }
  }

  lemma AddressOf(r: seq<u8>, h: nat, u: Fields) returns (n: Name, port: Option<seq<u8>>)
    requires h < |r| && r[h] == Open && NameAt(r, h, u).Some?
    ensures ProperName(n) && r[h..] == NameText(n) + PortText(port)
    ensures port.Some? ==> port.value != [] && All(port.value, Figure)
  {
    hide Figure, IsNum, NameByte, IsHostChar, AddressByte, IsV6Char, ZoneByte, IsZoneChar, Letter, IsAlpha, UserByte,
      IsUserinfo, Span, PortAt, ClosedAt, PortText, NameText, All;
    HostBytesSame();
    ByteBehind(r, h);
    var t := SpanBytes(r, h + 1, IsV6Char, AddressByte);
    var v := h + 1 + |t|;
    if r[v] == Percent {
      ByteBehind(r, v);
      var z := SpanBytes(r, v + 1, IsZoneChar, ZoneByte);
      port := ClosedOf(r, h, v + 1 + |z|, u);
      n := Address(t, Some(z));
      ZoneText(t, z, PortText(port));
    } else {
      port := ClosedOf(r, h, v, u);
      n := Address(t, None);
      AddressText(t, PortText(port));
    }
  }

  lemma ServerOf(r: seq<u8>, a: nat, at: bool, u: Fields) returns (v: Authority)
    requires a <= |r| && HostAt(r, a, at, u).Some?
    ensures LooseServer(v) && r[a..] == ServerText(v) && v.user.Some? == at
  {
    hide Figure, IsNum, NameByte, IsHostChar, AddressByte, IsV6Char, ZoneByte, IsZoneChar, Letter, IsAlpha, UserByte,
      IsUserinfo, Span, NameAt, PortText, NameText, All, ProperName;
    HostBytesSame();
    if at {
      var t := SpanBytes(r, a, IsUserinfo, UserByte);
      var n, port := NameOf(r, a + |t| + 1, u.(userinfo := RunOf(a, a + |t|)));
      v := Authority(Some(t), n, port);
      ByteBehind(r, a + |t|);
      assert t + ([0x40] + (NameText(n) + PortText(port))) == t + [0x40] + (NameText(n) + PortText(port));
    } else {
      var n, port := NameOf(r, a, u);
      v := Authority(None, n, port);
      assert [] + (NameText(n) + PortText(port)) == NameText(n) + PortText(port);
    }
  }

  /** A server part at i that the second loop accepts, and what follows it. */
  lemma ServerRestOf(s: seq<u8>, i: nat, u: Fields) returns (v: Authority, rest: Rest)
    requires i <= |s| && ServerAt(s, i, u).Some? && NoTail(u) && u.host.Absent? && u.port.Absent? && u.userinfo.Absent?
    requires var (w, at) := ServerAt(s, i, u).value; w.host.Run? && WithHost(s, w, at).Some?
    ensures LooseServer(v) && BehindServer(rest) && s[i..] == ServerText(v) + RestText(rest)
    ensures var (w, at) := ServerAt(s, i, u).value;
      var e := i + |ServerText(v)|;
      && v.user.Some? == at && e <= |s| && WithHost(s, w, at) == Some(RestFields(e, rest, ServerParts(i, v, u)))
  {
    hide AfterServer, HostAt, LooseServer, BehindServer, RestFields, ServerParts, ServerText, RestText;
    var (w, at) := ServerAt(s, i, u).value;
    var e := Span(s, i, ServerCharacter);
    AfterKeeps(s, e, u.(host := RunOf(i, e)));
    hide Span;
    v := ServerOf(s[..e], i, at, w.(host := Run(i, 0)));
    rest := RestOf(s, e, u.(host := RunOf(i, e)));
    assert s[..e][i..] == s[i..e] && s[i..] == s[i..e] + s[e..];
    hide ServerAt, NoTail, WithHost;
    ServerAtRead(s, i, u, v, rest);
    WithHostRead(s, i, u, v, rest);
  }

  lemma AfterKeeps(s: seq<u8>, e: nat, u: Fields)
    requires e <= |s| && AfterServer(s, e, u).Some?
    ensures AfterServer(s, e, u).value.host == u.host
  {
  }

  /** Whatever http_parser_parse_url accepts is put together from proper parts. */
  lemma UrlIs(s: seq<u8>, connect: bool) returns (u: Url)
    requires UrlFields(s, connect).Some?
    ensures Proper(u) && UrlText(u) == s && u.Connect? == connect
  {
    hide UrlAt, WithHost, WithPort, HostAndPort, Proper;
    if connect {
      u := ConnectOf(s);
    } else if s[0] == Slash || s[0] == 42 {
      u := RelativeOf(s);
    } else {
      u := AbsoluteOf(s);
    }
  }

  /** Success and failure, in terms of the parts. */
  lemma UrlsAre(s: seq<u8>, connect: bool)
    ensures UrlFields(s, connect).Some? <==> exists u :: Proper(u) && UrlText(u) == s && u.Connect? == connect
  {
    hide UrlFields, Proper, UrlText;
    if UrlFields(s, connect).Some? {
      var u := UrlIs(s, connect);
    }
    forall u | Proper(u) && UrlText(u) == s && u.Connect? == connect ensures UrlFields(s, connect).Some? { UrlRead(u); }
  }

  lemma RelativeOf(s: seq<u8>) returns (u: Url)
    requires UrlFields(s, false).Some? && (s[0] == Slash || s[0] == 42)
    ensures Proper(u) && UrlText(u) == s && u.Relative?
  {
    hide PathAt, ProperRest, RestText, WithHost;
    assert s[0..] == s;
    var rest := PathOf(s, 0, NoFields);
    u := Relative(rest);
  }

  lemma ConnectOf(s: seq<u8>) returns (u: Url)
    requires UrlFields(s, true).Some?
    ensures Proper(u) && UrlText(u) == s && u.Connect?
  {
    hide LooseServer, BehindServer, RestFields, ServerParts, ServerText, RestText, ServerAt, WithHost, WithPort;
    assert s[0..] == s;
    var (w, at) := ServerAt(s, 0, NoFields).value;
    SomeHost(s, w, at);
    var v, rest := ServerRestOf(s, 0, NoFields);
    var parts := RestFields(|ServerText(v)|, rest, ServerParts(0, v, NoFields));
    PartsKeep(0, |ServerText(v)|, v, rest, NoFields);
    PartsPort(0, v, NoFields);
    WithPortRead(s, 0, v, RestText(rest), parts);
    u := Connect(v, rest);
    ConnectProper(v, rest);
  }

  /** Without a host there are none of the fields CONNECT needs. */
  lemma SomeHost(s: seq<u8>, w: Fields, at: bool)
    requires WithHost(s, w, at).Some? && HostAndPort(WithHost(s, w, at).value)
    ensures w.host.Run?
  {
    hide HostAt;
  }

  lemma ConnectProper(v: Authority, rest: Rest)
    requires HostAndPort(RestFields(|ServerText(v)|, rest, ServerParts(0, v, NoFields)))
    requires LooseServer(v) && (v.port.Some? ==> ProperServer(v)) && BehindServer(rest)
    ensures Proper(Connect(v, rest))
  {
    hide LooseServer, BehindServer, ServerText, UserText, NameText, NameField, JsonDigits.Value;
  }

  lemma AbsoluteOf(s: seq<u8>) returns (u: Url)
    requires UrlFields(s, false).Some? && s[0] != Slash && s[0] != 42
    ensures Proper(u) && UrlText(u) == s && u.Absolute?
  {
    hide LooseServer, BehindServer, RestFields, ServerParts, ServerText, RestText, ServerAt, WithHost, WithPort, UrlAt,
      NoTail, All, UserText, NameText, PortField, ProperServer;
    var (w, at) := UrlAt(s, false).value;
    var schema := SchemaOf(s, w, at);
    var i := |schema| + 3;
    var f := NoFields.(schema := Run(0, |schema|));
    NoTailYet(f);
    var v, rest := ServerRestOf(s, i, f);
    AbsoluteProper(s, schema, v, rest, w, at);
    u := Absolute(schema, v, rest);
  }

  lemma NoTailYet(u: Fields)
    requires u.path.Absent? && u.query.Absent? && u.fragment.Absent?
    ensures NoTail(u)
  {
  }

  lemma AbsoluteProper(s: seq<u8>, schema: seq<u8>, v: Authority, rest: Rest, w: Fields, at: bool)
    requires UrlFields(s, false).Some? && UrlAt(s, false) == Some((w, at)) && LooseServer(v)
    requires var i := |schema| + 3; i <= |s| && s[i..] == ServerText(v) + RestText(rest)
    requires WithHost(s, w, at) == Some(RestFields(|schema| + 3 + |ServerText(v)|, rest,
        ServerParts(|schema| + 3, v, NoFields.(schema := Run(0, |schema|)))))
    ensures ProperServer(v)
  {
    hide LooseServer, RestFields, ServerParts, ServerText, RestText, WithHost, WithPort, UrlAt, UserText, NameText,
      PortField, JsonDigits.Value;
    var i := |schema| + 3;
    var e := i + |ServerText(v)|;
    var f := NoFields.(schema := Run(0, |schema|));
    PartsKeep(i, e, v, rest, f);
    PartsPort(i, v, f);
    WithPortRead(s, i, v, RestText(rest), RestFields(e, rest, ServerParts(i, v, f)));
  }

  lemma PartsPort(i: nat, v: Authority, f: Fields)
    ensures ServerParts(i, v, f).port == PortField(i + |UserText(v.user)| + |NameText(v.name)|, v.port)
  {
    hide UserText, NameText, PortField, NameField;
  }

  lemma ServerKeeps(s: seq<u8>, i: nat, u: Fields)
    requires i <= |s| && ServerAt(s, i, u).Some?
    ensures ServerAt(s, i, u).value.0.schema == u.schema
  {
  }

  lemma SchemaOf(s: seq<u8>, w: Fields, at: bool) returns (schema: seq<u8>)
    requires s != [] && UrlAt(s, false) == Some((w, at)) && WithHost(s, w, at).Some? && s[0] != Slash && s[0] != 42
    ensures schema != [] && All(schema, Letter)
    ensures var i := |schema| + 3;
      && i <= |s| && s == schema + ([0x3a, 0x2f, 0x2f] + s[i..]) && w.host.Run?
      && ServerAt(s, i, NoFields.(schema := Run(0, |schema|))) == Some((w, at))
  {
    hide Letter, IsAlpha, Span, ServerAt, HostAt, AfterSchema, NoTail;
    HostBytesSame();
    SpanStep(s, 0, IsAlpha);
    assert s[0..] == s;
    schema := SpanBytes(s, 0, IsAlpha, Letter);
    BehindSchema(s, |schema|, NoFields.(schema := Run(0, |schema|)), w, at);
    assert s == schema + s[|schema|..];
  }

  lemma BehindSchema(s: seq<u8>, e: nat, f: Fields, w: Fields, at: bool)
    requires e <= |s| && AfterSchema(s, e, f) == Some((w, at)) && WithHost(s, w, at).Some?
    requires f.schema.Run? && f.host.Absent?
    ensures e + 3 <= |s| && s[e..] == [0x3a, 0x2f, 0x2f] + s[e + 3..] && ServerAt(s, e + 3, f) == Some((w, at))
    ensures w.host.Run?
  {
    hide ServerAt, HostAt;
    var rest := s[e..];
    if !(rest <= [Colon, Slash]) {
      assert rest == [0x3a, 0x2f, 0x2f] + s[e + 3..];
      ServerKeeps(s, e + 3, f);
    }
  }
}
