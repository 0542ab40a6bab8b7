/** http_parser_parse_url: the fields of a URL, in order and apart. */
module Urls {
  import opened Bytes
  import opened Options
  import opened UrlSpec
  import opened UrlHost
  import JsonDigits

  // ---- the result

  function FieldEnd(f: Field): nat { if f.Run? then f.off + f.len else 0 }

  /** The characters of a field. */
  function Slice(s: seq<u8>, f: Field): seq<u8> {
    if f.Run? && f.off + f.len <= |s| then s[f.off..f.off + f.len] else []
  }

  /** CONNECT requests consist of a host and a port. */
  predicate HostAndPort(u: Fields) {
    u.host.Run? && u.port.Run? && u == NoFields.(host := u.host, port := u.port)
  }

  /** The server part taken apart, when there is one. */
  function WithHost(s: seq<u8>, u: Fields, at: bool): Option<Fields> {
    if u.host.Absent? then if u.schema.Run? then None else Some(u)
    else if FieldEnd(u.host) > |s| then None
    else HostAt(s[..FieldEnd(u.host)], u.host.off, at, u.(host := Run(u.host.off, 0)))
  }

  /** The fields and the port of URL s. */
  function UrlFields(s: seq<u8>, connect: bool): Option<(Fields, int)> {
    if s == [] then None
    else
      match UrlAt(s, connect)
      case None => None
      case Some(found) =>
        match WithHost(s, found.0, found.1)
        case None => None
        case Some(u) => if connect && !HostAndPort(u) then None else WithPort(s, u)
  }

  function WithPort(s: seq<u8>, u: Fields): Option<(Fields, int)> {
    if u.port.Absent? then Some((u, 0))
    else
      var v := JsonDigits.Value(Slice(s, u.port));
      if v > 0xffff then None else Some((u, v))
  }

  // ---- what the fields are

  /** Fields that are present follow one another from a on to b, none of them empty. */
  predicate InOrder(fs: seq<Field>, a: nat, b: nat) {
    if fs == [] then a <= b
    else if fs[0].Absent? then InOrder(fs[1..], a, b)
    else a <= fs[0].off && fs[0].len > 0 && InOrder(fs[1..], fs[0].off + fs[0].len, b)
  }

  function InUrlOrder(u: Fields): seq<Field> { [u.schema, u.userinfo, u.host, u.port, u.path, u.query, u.fragment] }

  /** The character before a field. */
  predicate After(s: seq<u8>, f: Field, c: u8) { f.Run? ==> 0 < f.off <= |s| && s[f.off - 1] == c }

  /** The tail of a URL from i on. */
  ghost predicate TailFields(s: seq<u8>, u: Fields, i: nat) {
    && InOrder([u.path, u.query, u.fragment], i, |s|)
    && (u.path.Run? ==> u.path.off < |s| && (s[u.path.off] == Slash || s[u.path.off] == 42))
    && After(s, u.query, Question)
    && (u.fragment.Run? ==> 0 < u.fragment.off <= |s| && s[u.fragment.off - 1] == Hash)
  }

  lemma FragmentFields(s: seq<u8>, i: nat, u: Fields)
    requires 0 < i <= |s| && s[i - 1] == Hash && FragmentAt(s, i, u).Some?
    ensures var w := FragmentAt(s, i, u).value;
      w == u.(fragment := w.fragment) && InOrder([w.fragment], i, |s|) && After(s, w.fragment, Hash)
  {
    var g := Span(s, i, IsHash);
    var h := Span(s, g, FragmentChar);
    assert [RunOf(g, h)][1..] == [];
    if g > i { assert IsHash(s[g - 1]); }
  }

  lemma QueryFields(s: seq<u8>, i: nat, u: Fields)
    requires 0 < i <= |s| && s[i - 1] == Question && u.fragment.Absent? && QueryAt(s, i, u).Some?
    ensures var w := QueryAt(s, i, u).value;
      && w == u.(query := w.query, fragment := w.fragment) && InOrder([w.query, w.fragment], i, |s|)
      && After(s, w.query, Question) && After(s, w.fragment, Hash)
  {
    hide FragmentAt;
    var r := Span(s, i, QueryChar);
    var v := u.(query := RunOf(i, r));
    if r < |s| { FragmentFields(s, r + 1, v); }
    var w := QueryAt(s, i, u).value;
    Two(w.query, w.fragment, i, if r < |s| then r + 1 else r, |s|);
  }

  lemma Two(f: Field, g: Field, a: nat, m: nat, b: nat)
    requires InOrder([g], m, b) && a <= m && (f.Run? ==> a <= f.off && f.len > 0 && f.off + f.len <= m)
    ensures InOrder([f, g], a, b)
  {
    assert [f, g][1..] == [g] && [g][1..] == [];
  }

  /** A field in front of others. */
  lemma Front(f: Field, fs: seq<Field>, a: nat, m: nat, b: nat)
    requires InOrder(fs, m, b) && a <= m && (f.Run? ==> a <= f.off && f.len > 0 && f.off + f.len <= m)
    ensures InOrder([f] + fs, a, b)
  {
    assert ([f] + fs)[1..] == fs;
    if f.Run? { Earlier(fs, f.off + f.len, m, b); } else { Earlier(fs, a, m, b); }
  }

  lemma {:induction false} Earlier(fs: seq<Field>, a: nat, m: nat, b: nat)
    requires InOrder(fs, m, b) && a <= m
    ensures InOrder(fs, a, b)
  {
    if fs != [] && fs[0].Absent? { Earlier(fs[1..], a, m, b); }
  }

  lemma PathFields(s: seq<u8>, i: nat, u: Fields)
    requires i < |s| && (s[i] == Slash || s[i] == 42) && u.query.Absent? && u.fragment.Absent? && PathAt(s, i, u).Some?
    ensures var w := PathAt(s, i, u).value;
      w == u.(path := w.path, query := w.query, fragment := w.fragment) && TailFields(s, w, i)
  {
    hide FragmentAt, QueryAt;
    var r := Span(s, i + 1, IsUrlChar);
    var v := u.(path := RunOf(i, r));
    var w := PathAt(s, i, u).value;
    if r == |s| {
      Absents(|s|);
      Front(w.path, [Absent, Absent], i, r, |s|);
    } else if s[r] == Question {
      QueryFields(s, r + 1, v);
      Front(w.path, [w.query, w.fragment], i, r + 1, |s|);
    } else {
      FragmentFields(s, r + 1, v);
      Two(Absent, w.fragment, r + 1, r + 1, |s|);
      Front(w.path, [Absent, w.fragment], i, r + 1, |s|);
    }
    assert [w.path] + [w.query, w.fragment] == [w.path, w.query, w.fragment];
  }

  lemma Absents(n: nat)
    ensures InOrder([Absent, Absent], n, n) && InOrder([Absent], n, n)
  {
    var one: seq<Field> := [Absent];
    assert [Absent, Absent][1..] == one && one[1..] == [];
  }

  lemma TailOnly(s: seq<u8>, e: nat, v: Fields)
    requires e <= |s| && NoTail(v) && AfterServer(s, e, v).Some?
    ensures var w := AfterServer(s, e, v).value;
      w == v.(path := w.path, query := w.query, fragment := w.fragment) && TailFields(s, w, e)
  {
    hide PathAt, QueryAt;
    var w := AfterServer(s, e, v).value;
    if e == |s| {
      Absents(|s|);
      Front(Absent, [Absent, Absent], e, e, |s|);
      assert [Absent] + [Absent, Absent] == [w.path, w.query, w.fragment];
    } else if s[e] == Slash {
      PathFields(s, e, v);
    } else {
      QueryFields(s, e + 1, v);
      Front(Absent, [w.query, w.fragment], e, e + 1, |s|);
      assert [Absent] + [w.query, w.fragment] == [w.path, w.query, w.fragment];
    }
  }

  /** The server part lies between the schema and the tail. */
  ghost predicate ServerFields(s: seq<u8>, u: Fields, i: nat) {
    && (u.host.Run? ==> i <= u.host.off && u.host.len > 0 && FieldEnd(u.host) <= |s|)
    && u.userinfo.Absent? && u.port.Absent?
    && TailFields(s, u, if u.host.Run? then FieldEnd(u.host) else i)
  }

  lemma ServerSound(s: seq<u8>, i: nat, u: Fields)
    requires i <= |s| && u.host.Absent? && u.userinfo.Absent? && u.port.Absent? && NoTail(u) && ServerAt(s, i, u).Some?
    ensures var w := ServerAt(s, i, u).value.0; w.schema == u.schema && ServerFields(s, w, i)
  {
    hide AfterServer, TailFields;
    var e := Span(s, i, ServerCharacter);
    TailOnly(s, e, u.(host := RunOf(i, e)));
  }

  /** The schema: letters, followed by ://. */
  predicate SchemaFields(s: seq<u8>, u: Fields) {
    u.schema.Run? ==>
      && u.schema.off == 0 && 0 < u.schema.len <= |s| && (forall k | 0 <= k < u.schema.len :: IsAlpha(s[k]))
      && (u.host.Run? ==> [Colon, Slash, Slash] <= s[u.schema.len..] && u.schema.len + 3 <= u.host.off)
  }

  lemma UrlSound(s: seq<u8>, connect: bool)
    requires s != [] && UrlAt(s, connect).Some?
    ensures var u := UrlAt(s, connect).value.0;
      && SchemaFields(s, u)
      && (u.schema.Absent? || u.host.Run? ==> ServerFields(s, u, if u.schema.Run? then u.schema.len + 3 else 0))
  {
    hide ServerAt, TailFields;
    if connect {
      ServerSound(s, 0, NoFields);
    } else if s[0] == Slash || s[0] == 42 {
      PathFields(s, 0, NoFields);
    } else {
      var e := Span(s, 0, IsAlpha);
      var u := NoFields.(schema := RunOf(0, e));
      assert e > 0;
      if [Colon, Slash, Slash] <= s[e..] && !(s[e..] <= [Colon, Slash]) { ServerSound(s, e + 3, u); }
    }
  }

  // ---- the parts of the server part

  /** User information, host and port in r from a on, and the delimiters around them. */
  ghost predicate HostParts(r: seq<u8>, a: nat, u: Fields) {
    && InOrder([u.userinfo, u.host, u.port], a, |r|) && u.host.Run? && u.host.off + u.host.len <= |r|
    && After(r, u.port, Colon)
    && (u.userinfo.Run? ==> FieldEnd(u.userinfo) < |r| && r[FieldEnd(u.userinfo)] == AtSign)
    && (u.port.Run? ==> FieldEnd(u.port) == |r| && JsonDigits.AllDigits(Slice(r, u.port)))
  }

  lemma PortSound(r: seq<u8>, p: nat, u: Fields, a: nat)
    requires p <= |r| && u.port.Absent? && u.host.Run? && a <= u.host.off && u.host.len > 0 && FieldEnd(u.host) <= p
    requires PortAt(r, p, u).Some?
    ensures var w := PortAt(r, p, u).value;
      && w == u.(port := w.port) && InOrder([w.host, w.port], a, |r|) && After(r, w.port, Colon)
      && (w.port.Run? ==> FieldEnd(w.port) == |r| && JsonDigits.AllDigits(Slice(r, w.port)))
  {
    var w := PortAt(r, p, u).value;
    Absents(|r|);
    assert [w.port][1..] == [];
    if w.port.Run? {
      assert InOrder([w.port], p + 1, |r|);
      Two(w.host, w.port, a, p + 1, |r|);
    } else {
      Earlier([Absent], p, |r|, |r|);
      Two(w.host, w.port, a, p, |r|);
    }
  }

  lemma NameSound(r: seq<u8>, h: nat, u: Fields)
    requires h <= |r| && u.port.Absent? && NameAt(r, h, u).Some?
    ensures var w := NameAt(r, h, u).value;
      && w == u.(host := w.host, port := w.port) && w.host.Run? && InOrder([w.host, w.port], h, |r|)
          && FieldEnd(w.host) <= |r|
      && After(r, w.port, Colon) && (w.port.Run? ==> FieldEnd(w.port) == |r| && JsonDigits.AllDigits(Slice(r, w.port)))
  {
    hide PortAt, Slice;
    if r[h] == Open {
      var v := Span(r, h + 1, IsV6Char);
      var z := if r[v] == Percent then Span(r, v + 1, IsZoneChar) else v;
      PortSound(r, z + 1, u.(host := Run(h + 1, z - (h + 1))), h);
    } else {
      var v := Span(r, h, IsHostChar);
      PortSound(r, v, u.(host := Run(h, v - h)), h);
    }
  }

  lemma HostSound(r: seq<u8>, a: nat, at: bool, u: Fields)
    requires a <= |r| && u.port.Absent? && u.userinfo.Absent? && HostAt(r, a, at, u).Some?
    ensures var w := HostAt(r, a, at, u).value;
      w == u.(userinfo := w.userinfo, host := w.host, port := w.port) && HostParts(r, a, w)
  {
    hide NameAt, Slice;
    var w := HostAt(r, a, at, u).value;
    var m := if at then Span(r, a, IsUserinfo) else a;
    var h := if at then m + 1 else a;
    NameSound(r, h, if at then u.(userinfo := RunOf(a, m)) else u);
    Front(w.userinfo, [w.host, w.port], a, h, |r|);
    assert [w.userinfo] + [w.host, w.port] == [w.userinfo, w.host, w.port];
  }

  // ---- the whole

  /** What a parsed URL promises: the fields lie in the URL in order, apart and not empty; a schema
      comes with :// and a host; delimiters stand where they belong; the port is the value of its
      digits. */
  ghost predicate Sound(s: seq<u8>, u: Fields, port: int) {
    && InOrder(InUrlOrder(u), 0, |s|)
    && (u.schema.Run? ==> u.host.Run? && u.schema.len <= |s| && [Colon, Slash, Slash] <= s[u.schema.len..])
    && (u.userinfo.Run? ==> FieldEnd(u.userinfo) < |s| && s[FieldEnd(u.userinfo)] == AtSign)
    && After(s, u.port, Colon) && After(s, u.query, Question) && After(s, u.fragment, Hash)
    && (u.path.Run? ==> u.path.off < |s| && (s[u.path.off] == Slash || s[u.path.off] == 42))
    && 0 <= port <= 0xffff
    && (u.port.Run? ==> JsonDigits.AllDigits(Slice(s, u.port)) && port == JsonDigits.Value(Slice(s, u.port)))
    && (u.port.Absent? ==> port == 0)
  }

  /** Lists of fields, one behind the other. */
  lemma {:induction false} OrderAppend(fs: seq<Field>, gs: seq<Field>, a: nat, m: nat, b: nat)
    requires InOrder(fs, a, m) && InOrder(gs, m, b)
    ensures InOrder(fs + gs, a, b)
    decreases |fs|
  {
    if fs == [] {
      assert fs + gs == gs;
      Earlier(gs, a, m, b);
    } else {
      assert (fs + gs)[1..] == fs[1..] + gs;
      OrderAppend(fs[1..], gs, if fs[0].Absent? then a else fs[0].off + fs[0].len, m, b);
    }
  }

  lemma ParsedIsSound(s: seq<u8>, connect: bool)
    requires UrlFields(s, connect).Some?
    ensures var (u, port) := UrlFields(s, connect).value; Sound(s, u, port)
  {
    hide UrlAt, HostAt, HostParts, JsonDigits.Value, JsonDigits.AllDigits, InOrder, Slice;
    var found := UrlAt(s, connect).value.0;
    var w := UrlFields(s, connect).value.0;
    UrlSound(s, connect);
    var from := if found.schema.Run? then found.schema.len + 3 else 0;
    if found.host.Run? {
      var e := FieldEnd(found.host);
      HostSound(s[..e], found.host.off, UrlAt(s, connect).value.1, found.(host := Run(found.host.off, 0)));
      HostInUrl(s, found, w, e);
    }
    Whole(s, found, w, from);
  }

  /** The parts of the server part, seen from the whole URL. */
  lemma HostInUrl(s: seq<u8>, u: Fields, w: Fields, e: nat)
    requires u.host.Run? && e == FieldEnd(u.host) <= |s| && HostParts(s[..e], u.host.off, w)
    ensures InOrder([w.userinfo, w.host, w.port], u.host.off, e) && w.host.Run? && After(s, w.port, Colon)
    ensures w.userinfo.Run? ==> FieldEnd(w.userinfo) < |s| && s[FieldEnd(w.userinfo)] == AtSign
    ensures w.port.Run? ==> JsonDigits.AllDigits(Slice(s, w.port))
  {
    if w.port.Run? { assert Slice(s, w.port) == Slice(s[..e], w.port); }
  }

  lemma Whole(s: seq<u8>, u: Fields, w: Fields, from: nat)
    requires SchemaFields(s, u) && ServerFields(s, u, from) && from == (if u.schema.Run? then u.schema.len + 3 else 0)
    requires w == u.(userinfo := w.userinfo, host := w.host, port := w.port) && (u.schema.Run? ==> u.host.Run?)
    requires if u.host.Run? then InOrder([w.userinfo, w.host, w.port], u.host.off, FieldEnd(u.host)) else w == u
    ensures InOrder(InUrlOrder(w), 0, |s|) && TailFields(s, w, if u.host.Run? then FieldEnd(u.host) else from)
  {
    hide InOrder;
    var tail := [w.path, w.query, w.fragment];
    if u.host.Run? {
      WithServer(w.schema, [w.userinfo, w.host, w.port], tail, u.host.off, FieldEnd(u.host), |s|);
      assert [w.schema] + ([w.userinfo, w.host, w.port] + tail) == InUrlOrder(w);
    } else {
      NoServer(tail, from, |s|);
      assert [Absent, Absent, Absent, Absent] + tail == InUrlOrder(w);
    }
  }

  lemma WithServer(schema: Field, server: seq<Field>, tail: seq<Field>, a: nat, m: nat, n: nat)
    requires InOrder(server, a, m) && InOrder(tail, m, n)
    requires schema.Run? ==> schema.len > 0 && schema.off + schema.len <= a
    ensures InOrder([schema] + (server + tail), 0, n)
  {
    hide InOrder;
    OrderAppend(server, tail, a, m, n);
    Front(schema, server + tail, 0, a, n);
  }

  /** Four fields that are absent in front. */
  lemma NoServer(tail: seq<Field>, m: nat, n: nat)
    requires InOrder(tail, m, n)
    ensures InOrder([Absent, Absent, Absent, Absent] + tail, 0, n)
  {
    hide InOrder;
    Front(Absent, tail, 0, m, n);
    Front(Absent, [Absent] + tail, 0, 0, n);
    Front(Absent, [Absent] + ([Absent] + tail), 0, 0, n);
    Front(Absent, [Absent] + ([Absent] + ([Absent] + tail)), 0, 0, n);
    assert [Absent] + ([Absent] + ([Absent] + ([Absent] + tail))) == [Absent, Absent, Absent, Absent] + tail;
  }

  // ---- the parser

  class HttpUrl {
    var fields: Fields
    var port: int

    constructor ()
      ensures fields == NoFields && port == 0
    {
      fields := NoFields;
      port := 0;
    }

    /** http_parse_host */
    method ParseHost(buf: array<u8>, at: bool) returns (code: int)
      requires fields.host.Run? && FieldEnd(fields.host) <= buf.Length && fields.userinfo.Absent?
      modifies this`fields
      ensures code == 0 || code == 1
      ensures var r := HostAt(buf[..old(FieldEnd(fields.host))], old(fields.host.off), at,
          old(fields).(host := Run(old(fields.host.off), 0)));
        if code == 0 then r == Some(fields) else r.None?
    {
      hide HostScan, HostAt, HostFields, HostChar;
      var off, end := fields.host.off, fields.host.off + fields.host.len;
      fields := fields.(host := Run(off, 0));
      var st := if at then UserinfoStart else HostStart;
      ghost var r := buf[..end];
      ScanIsHost(r, off, at, fields);
      ghost var result := HostScan(r, off, st, fields);
      var p := off;
      while p < end
        invariant off <= p <= end && r == buf[..end] && HostScan(r, p, st, fields) == result
      {
        HostStep(r, p, st, fields);
        assert r[p] == buf[p];
        var next := HostChar(st, buf[p]);
        if next.HostDead? { return 1; }
        fields := HostFields(fields, st, next, p);
        st := next;
        p := p + 1;
      }
      HostStep(r, p, st, fields);
      code := if MayEnd(st) then 0 else 1;
    }

    /** The port's digits as a number, unless it is too large. */
    method ReadPort(buf: array<u8>) returns (code: int)
      requires fields.port.Run? && FieldEnd(fields.port) <= buf.Length
          && JsonDigits.AllDigits(Slice(buf[..], fields.port))
      modifies this`port
      ensures code == 0 || code == 1
      ensures var v := JsonDigits.Value(Slice(buf[..], fields.port)); if code == 0 then v <= 0xffff && port == v
          else v > 0xffff
    {
      hide JsonDigits.Value;
      var off, end := fields.port.off, fields.port.off + fields.port.len;
      ghost var digits := Slice(buf[..], fields.port);
      var p: int, v: int := off, 0;
      NoDigits();
      while p < end
        invariant off <= p <= end && v == JsonDigits.Value(digits[..p - off]) <= 0xffff
      {
        assert digits[p - off] == buf[p];
        MoreDigits(digits, p - off);
        v := v * 10;
        v := v + (buf[p] - 48);
        p := p + 1;
        if v > 0xffff {
          ValueGrows(digits, p - off);
          return 1;
        }
      }
      assert digits[..p - off] == digits;
      port := v;
      return 0;
    }

    /** http_parser_parse_url */
    method ParseUrl(buf: array<u8>, connect: bool) returns (code: int)
      requires buf.Length <= 0xffff
      modifies this
      ensures code == 0 || code == 1
      ensures if code == 0 then UrlFields(buf[..], connect) == Some((fields, port)) && Sound(buf[..], fields, port)
        else UrlFields(buf[..], connect).None?
    {
      hide Scan, UrlAt, HostAt, UrlChar, Sound, JsonDigits.Value, Extend, SlotOf;
      ghost var s := buf[..];
      if buf.Length == 0 { return 1; }
      fields, port := NoFields, 0;
      var st := if connect then ServerStart else SpacesBeforeUrl;
      var prev := NoSlot;
      var at := false;
      ScanIsUrl(s, connect);
      var p := 0;
      while p < buf.Length
        invariant 0 <= p <= buf.Length && port == 0 && Scan(s, p, st, prev, at, fields) == UrlAt(s, connect)
      {
        ScanStep(s, p, st, prev, at, fields);
        st := UrlChar(st, buf[p]);
        if st.Dead? { return 1; }
        var t := SlotOf(st);
        if !t.NoSlot? {
          if st.ServerWithAt? { at := true; }
          fields := Extend(fields, t, prev, p);
          prev := t;
        }
        p := p + 1;
      }
      ScanStep(s, p, st, prev, at, fields);
      code := Finish(buf, connect, at);
      if code == 0 { ParsedIsSound(s, connect); }
    }

    /** The checks after the first loop. */
    method Finish(buf: array<u8>, connect: bool, at: bool) returns (code: int)
      requires buf.Length > 0 && UrlAt(buf[..], connect) == Some((fields, at)) && port == 0
      modifies this
      ensures code == 0 || code == 1
      ensures if code == 0 then UrlFields(buf[..], connect) == Some((fields, port))
          else UrlFields(buf[..], connect).None?
    {
      hide Scan, UrlAt, HostAt, JsonDigits.Value, JsonDigits.AllDigits, Slice;
      ghost var s := buf[..];
      ghost var found := fields;
      UrlSound(s, connect);
      if fields.schema.Run? && fields.host.Absent? { return 1; }
      if fields.host.Run? {
        assert s[..FieldEnd(found.host)] == buf[..FieldEnd(found.host)];
        code := ParseHost(buf, at);
        if code != 0 { return; }
        HostSound(s[..FieldEnd(found.host)], found.host.off, at, found.(host := Run(found.host.off, 0)));
        HostInUrl(s, found, fields, FieldEnd(found.host));
      }
      if connect && !HostAndPort(fields) { return 1; }
      code := 0;
      if fields.port.Run? { code := ReadPort(buf); }
    }
  }

  lemma NoDigits()
    ensures forall digits: seq<u8> :: JsonDigits.Value(digits[..0]) == 0
  {
  }

  lemma MoreDigits(digits: seq<u8>, n: nat)
    requires n < |digits| && JsonDigits.AllDigits(digits)
    ensures JsonDigits.Value(digits[..n + 1]) == 10 * JsonDigits.Value(digits[..n]) + (digits[n] as int - 48)
  {
    assert digits[..n + 1][..n] == digits[..n];
  }

  lemma {:induction false} ValueGrows(digits: seq<u8>, n: nat)
    requires n <= |digits|
    ensures JsonDigits.Value(digits) >= JsonDigits.Value(digits[..n])
    decreases |digits|
  {
    if n < |digits| {
      var init := digits[..|digits| - 1];
      assert init[..n] == digits[..n];
      ValueGrows(init, n);
    } else {
      assert digits[..n] == digits;
    }
  }
}
