/** The server part of a URL: user information, host and port. */
module UrlHost {
  import opened Bytes
  import opened Options
  import opened UrlSpec

  // ---- http_parse_host_char

  datatype HostState =
    | HostDead | UserinfoStart | Userinfo | HostStart | Host | V6Start | V6 | V6End | ZoneStart | Zone
    | PortStart | Port

  const Open: u8 := 91
  const Close: u8 := 93
  const Percent: u8 := 37

  function HostChar(s: HostState, c: u8): HostState {
    match s
    case UserinfoStart | Userinfo => if c == AtSign then HostStart else if IsUserinfo(c) then Userinfo else HostDead
    case HostStart => if c == Open then V6Start else if IsHostChar(c) then Host else HostDead
    case Host => if IsHostChar(c) then Host else if c == Colon then PortStart else HostDead
    case V6End => if c == Colon then PortStart else HostDead
    case V6 =>
      if c == Close then V6End else if IsV6Char(c) then V6 else if c == Percent then ZoneStart else HostDead
    case V6Start => if IsV6Char(c) then V6 else HostDead
    case Zone => if c == Close then V6End else if IsZoneChar(c) then Zone else HostDead
    case ZoneStart => if IsZoneChar(c) then Zone else HostDead
    case PortStart | Port => if IsNum(c) then Port else HostDead
    case HostDead => HostDead
  }

  function Longer(f: Field): Field { if f.Run? then f.(len := f.len + 1) else f }

  /** The fields after a character at i that leads from st to next. */
  function HostFields(u: Fields, st: HostState, next: HostState, i: nat): Fields {
    match next
    case Host => u.(host := if st.Host? then Longer(u.host) else MovedTo(u.host, i))
    case V6 => u.(host := if st.V6? then Longer(u.host) else MovedTo(u.host, i))
    case ZoneStart | Zone => u.(host := Longer(u.host))
    case Port => u.(port := if st.Port? then Longer(u.port) else Run(i, 1))
    case Userinfo => u.(userinfo := if st.Userinfo? then Longer(u.userinfo) else Run(i, 1))
    case _ => u
  }

  /** One character more, counted from p on. */
  function MovedTo(f: Field, p: nat): Field { if f.Run? then Run(p, f.len + 1) else f }

  predicate MayEnd(st: HostState) { st.Host? || st.V6End? || st.Port? }

  /** The loop of http_parse_host over r from position i on. */
  function HostScan(r: seq<u8>, i: nat, st: HostState, u: Fields): Option<Fields>
    requires i <= |r|
    decreases |r| - i
  {
    if i == |r| then if MayEnd(st) then Some(u) else None
    else
      var next := HostChar(st, r[i]);
      if next.HostDead? then None else HostScan(r, i + 1, next, HostFields(u, st, next, i))
  }

  // ---- the same by spans

  /** Nothing or a colon and a port at p, up to the end. */
  function PortAt(r: seq<u8>, p: nat, u: Fields): Option<Fields>
    requires p <= |r|
  {
    if p == |r| then Some(u)
    else if r[p] != Colon then None
    else
      var d := Span(r, p + 1, IsNum);
      if d == |r| && d > p + 1 then Some(u.(port := Run(p + 1, d - (p + 1)))) else None
  }

  /** A name, or an address in brackets that may have a zone. */
  function NameAt(r: seq<u8>, h: nat, u: Fields): Option<Fields>
    requires h <= |r|
  {
    if h == |r| then None
    else if r[h] == Open then
      var v := Span(r, h + 1, IsV6Char);
      if v == h + 1 || v == |r| then None
      else if r[v] == Percent then
        var z := Span(r, v + 1, IsZoneChar);
        if z == v + 1 then None else ClosedAt(r, h, z, u)
      else ClosedAt(r, h, v, u)
    else
      var v := Span(r, h, IsHostChar);
      if v == h then None else PortAt(r, v, u.(host := Run(h, v - h)))
  }

  function ClosedAt(r: seq<u8>, h: nat, z: nat, u: Fields): Option<Fields>
    requires h < z <= |r|
  {
    if z == |r| || r[z] != Close then None else PortAt(r, z + 1, u.(host := Run(h + 1, z - (h + 1))))
  }

  /** The server part r from a on, with user information when it has an @. */
  function HostAt(r: seq<u8>, a: nat, at: bool, u: Fields): Option<Fields>
    requires a <= |r|
  {
    if !at then NameAt(r, a, u)
    else
      var m := Span(r, a, IsUserinfo);
      if m == |r| || r[m] != AtSign then None else NameAt(r, m + 1, u.(userinfo := RunOf(a, m)))
  }

  // ---- the loop computes the spans

  lemma HostStep(r: seq<u8>, i: nat, st: HostState, u: Fields)
    requires i <= |r|
    ensures HostScan(r, i, st, u) ==
      if i == |r| then (if MayEnd(st) then Some(u) else None)
      else
        var next := HostChar(st, r[i]);
        if next.HostDead? then None else HostScan(r, i + 1, next, HostFields(u, st, next, i))
  {
  }

  lemma {:induction false} ScanPort(r: seq<u8>, i: nat, u: Fields, p: nat)
    requires p < i <= |r| && u.port == Run(p, i - p)
    ensures var d := Span(r, i, IsNum);
      HostScan(r, i, Port, u) == if d == |r| then Some(u.(port := Run(p, d - p))) else None
    decreases |r| - i
  {
    hide HostScan, Span;
    HostStep(r, i, Port, u);
    SpanStep(r, i, IsNum);
    if i < |r| && IsNum(r[i]) { ScanPort(r, i + 1, u.(port := Run(p, i + 1 - p)), p); }
  }

  /** Behind the host. */
  lemma ScanEnd(r: seq<u8>, i: nat, st: HostState, u: Fields)
    requires i <= |r| && (st.V6End? || (st.Host? && (i < |r| ==> !IsHostChar(r[i]))))
    ensures HostScan(r, i, st, u) == PortAt(r, i, u)
  {
    hide HostScan, Span;
    HostStep(r, i, st, u);
    if i < |r| && r[i] == Colon {
      HostStep(r, i + 1, PortStart, u);
      SpanStep(r, i + 1, IsNum);
      if i + 1 < |r| && IsNum(r[i + 1]) { ScanPort(r, i + 2, u.(port := Run(i + 1, 1)), i + 1); }
    }
  }

  lemma {:induction false} ScanName(r: seq<u8>, i: nat, u: Fields, h: nat)
    requires h < i <= |r| && u.host == Run(h, i - h)
    ensures var v := Span(r, i, IsHostChar); HostScan(r, i, Host, u) == PortAt(r, v, u.(host := Run(h, v - h)))
    decreases |r| - i
  {
    hide HostScan, PortAt;
    HostStep(r, i, Host, u);
    SpanStep(r, i, IsHostChar);
    if i < |r| && IsHostChar(r[i]) {
      ScanName(r, i + 1, u.(host := Run(h, i + 1 - h)), h);
    } else {
      ScanEnd(r, i, Host, u);
    }
  }

  lemma {:induction false} ScanZone(r: seq<u8>, i: nat, u: Fields, h: nat)
    requires h + 1 < i <= |r| && u.host == Run(h + 1, i - (h + 1))
    ensures HostScan(r, i, Zone, u) == ClosedAt(r, h, Span(r, i, IsZoneChar), u)
    decreases |r| - i
  {
    hide HostScan, PortAt, Span;
    HostStep(r, i, Zone, u);
    SpanStep(r, i, IsZoneChar);
    if i < |r| {
      if r[i] == Close { ScanEnd(r, i + 1, V6End, u); }
      else if IsZoneChar(r[i]) { ScanZone(r, i + 1, u.(host := Run(h + 1, i + 1 - (h + 1))), h); }
    }
  }

  /** Behind the percent sign. */
  lemma ScanZoneStart(r: seq<u8>, i: nat, u: Fields, h: nat)
    requires h + 1 < i <= |r| && u.host == Run(h + 1, i - (h + 1))
    ensures var z := Span(r, i, IsZoneChar);
      HostScan(r, i, ZoneStart, u) == if z == i then None else ClosedAt(r, h, z, u)
  {
    hide HostScan, PortAt, Span;
    HostStep(r, i, ZoneStart, u);
    SpanStep(r, i, IsZoneChar);
    if i < |r| && IsZoneChar(r[i]) { ScanZone(r, i + 1, u.(host := Run(h + 1, i + 1 - (h + 1))), h); }
  }

  lemma {:induction false} ScanV6(r: seq<u8>, i: nat, u: Fields, h: nat)
    requires h + 1 < i <= |r| && u.host == Run(h + 1, i - (h + 1))
    ensures var v := Span(r, i, IsV6Char);
      HostScan(r, i, V6, u) ==
      if v == |r| then None
      else if r[v] == Percent then
        var z := Span(r, v + 1, IsZoneChar);
        if z == v + 1 then None else ClosedAt(r, h, z, u)
      else ClosedAt(r, h, v, u)
    decreases |r| - i
  {
    hide HostScan, PortAt, Span;
    HostStep(r, i, V6, u);
    SpanStep(r, i, IsV6Char);
    if i < |r| {
      if r[i] == Close {
        ScanEnd(r, i + 1, V6End, u);
      } else if IsV6Char(r[i]) {
        ScanV6(r, i + 1, u.(host := Run(h + 1, i + 1 - (h + 1))), h);
      } else if r[i] == Percent {
        ScanZoneStart(r, i + 1, u.(host := Run(h + 1, i + 1 - (h + 1))), h);
      }
    }
  }

  lemma ScanHostStart(r: seq<u8>, h: nat, u: Fields)
    requires h <= |r| && u.host.Run? && u.host.len == 0
    ensures HostScan(r, h, HostStart, u) == NameAt(r, h, u)
  {
    hide HostScan, PortAt, Span, ClosedAt;
    HostStep(r, h, HostStart, u);
    if h < |r| {
      if r[h] == Open {
        ScanV6Start(r, h, u);
      } else {
        SpanStep(r, h, IsHostChar);
        if IsHostChar(r[h]) { ScanName(r, h + 1, u.(host := Run(h, 1)), h); }
      }
    }
  }

  /** Behind an opening bracket at h. */
  lemma ScanV6Start(r: seq<u8>, h: nat, u: Fields)
    requires h < |r| && r[h] == Open && u.host.Run? && u.host.len == 0
    ensures HostScan(r, h + 1, V6Start, u) == NameAt(r, h, u)
  {
    hide HostScan, PortAt, Span;
    HostStep(r, h + 1, V6Start, u);
    SpanStep(r, h + 1, IsV6Char);
    if h + 1 < |r| && IsV6Char(r[h + 1]) { ScanV6(r, h + 2, u.(host := Run(h + 1, 1)), h); }
  }

  lemma {:induction false} ScanUserinfo(r: seq<u8>, i: nat, u: Fields, a: nat)
    requires a < i <= |r| && u.userinfo == Run(a, i - a) && u.host.Run? && u.host.len == 0
    ensures var m := Span(r, i, IsUserinfo);
      HostScan(r, i, Userinfo, u) ==
      if m == |r| || r[m] != AtSign then None else NameAt(r, m + 1, u.(userinfo := Run(a, m - a)))
    decreases |r| - i
  {
    hide HostScan, NameAt, Span;
    HostStep(r, i, Userinfo, u);
    SpanStep(r, i, IsUserinfo);
    if i < |r| {
      if r[i] == AtSign { ScanHostStart(r, i + 1, u); }
      else if IsUserinfo(r[i]) { ScanUserinfo(r, i + 1, u.(userinfo := Run(a, i + 1 - a)), a); }
    }
  }

  /** The loop finds the spans. */
  lemma ScanIsHost(r: seq<u8>, a: nat, at: bool, u: Fields)
    requires a <= |r| && u.host.Run? && u.host.len == 0 && u.userinfo.Absent?
    ensures HostScan(r, a, if at then UserinfoStart else HostStart, u) == HostAt(r, a, at, u)
  {
    hide HostScan, NameAt, Span;
    if at {
      HostStep(r, a, UserinfoStart, u);
      SpanStep(r, a, IsUserinfo);
      if a < |r| {
        if r[a] == AtSign { ScanHostStart(r, a + 1, u); }
        else if IsUserinfo(r[a]) { ScanUserinfo(r, a + 1, u.(userinfo := Run(a, 1)), a); }
      }
    } else {
      ScanHostStart(r, a, u);
    }
  }
}
