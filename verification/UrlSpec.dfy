/** URLs as the parser takes them apart: the two transition functions, what their loops compute,
    and the same decomposition by spans of characters. */
module UrlSpec {
  import opened Bytes
  import opened Options

  // ---- characters

  predicate IsAlpha(c: u8) { 65 <= c <= 90 || 97 <= c <= 122 }
  predicate IsNum(c: u8) { 48 <= c <= 57 }
  predicate IsAlnum(c: u8) { IsAlpha(c) || IsNum(c) }
  predicate IsHex(c: u8) { IsNum(c) || 65 <= c <= 70 || 97 <= c <= 102 }

  /** The set bits of normal_url_char: printable, but for # and ?. */
  predicate IsUrlChar(c: u8) { 33 <= c <= 126 && c != 35 && c != 63 }

  /** - _ . ! ~ * ' ( ) */
  predicate IsMark(c: u8) { c == 45 || c == 95 || c == 46 || c == 33 || c == 126 || 39 <= c <= 42 }

  /** Also % ; : & = + $ and the comma. */
  predicate IsUserinfo(c: u8) {
    IsAlnum(c) || IsMark(c) || c == 37 || c == 59 || c == 58 || c == 38 || c == 61 || c == 43 || c == 36 || c == 44
  }

  predicate IsHostChar(c: u8) { IsAlnum(c) || c == 46 || c == 45 }
  predicate IsV6Char(c: u8) { IsHex(c) || c == 58 || c == 46 }
  predicate IsZoneChar(c: u8) { IsAlnum(c) || c == 37 || c == 46 || c == 45 || c == 95 || c == 126 }

  const Slash: u8 := 47
  const Question: u8 := 63
  const Hash: u8 := 35
  const AtSign: u8 := 64
  const Colon: u8 := 58

  // ---- parse_url_char

  datatype State =
    | Dead | SpacesBeforeUrl | Schema | SchemaSlash | SchemaSlashSlash | ServerStart | Server | ServerWithAt
    | Path | QueryStart | Query | FragmentStart | Fragment

  function UrlChar(s: State, c: u8): State {
    if c == 32 || c == 13 || c == 10 then Dead
    else
      match s
      case Dead => Dead
      case SpacesBeforeUrl => if c == Slash || c == 42 then Path else if IsAlpha(c) then Schema else Dead
      case Schema => if IsAlpha(c) then Schema else if c == Colon then SchemaSlash else Dead
      case SchemaSlash => if c == Slash then SchemaSlashSlash else Dead
      case SchemaSlashSlash => if c == Slash then ServerStart else Dead
      case ServerWithAt => if c == AtSign then Dead else ServerChar(c)
      case ServerStart | Server => ServerChar(c)
      case Path => if IsUrlChar(c) then Path else if c == Question then QueryStart else if c == Hash then FragmentStart
          else Dead
      case QueryStart | Query =>
        if IsUrlChar(c) || c == Question then Query else if c == Hash then FragmentStart else Dead
      case FragmentStart => if IsUrlChar(c) || c == Question then Fragment else if c == Hash then FragmentStart
          else Dead
      case Fragment => if IsUrlChar(c) || c == Question || c == Hash then Fragment else Dead
  }

  function ServerChar(c: u8): State {
    if c == Slash then Path
    else if c == Question then QueryStart
    else if c == AtSign then ServerWithAt
    else if IsUserinfo(c) || c == 91 || c == 93 then Server
    else Dead
  }

  // ---- fields

  datatype Field = Absent | Run(off: nat, len: nat)

  datatype Fields = Fields(schema: Field, userinfo: Field, host: Field, port: Field, path: Field, query: Field,
      fragment: Field)

  const NoFields := Fields(Absent, Absent, Absent, Absent, Absent, Absent, Absent)

  /** The fields the first loop fills; None for the delimiters. */
  datatype Slot = NoSlot | InSchema | InHost | InPath | InQuery | InFragment

  function SlotOf(s: State): Slot {
    match s
    case Schema => InSchema
    case Server | ServerWithAt => InHost
    case Path => InPath
    case Query => InQuery
    case Fragment => InFragment
    case _ => NoSlot
  }

  function FieldIn(u: Fields, t: Slot): Field {
    match t
    case InSchema => u.schema
    case InHost => u.host
    case InPath => u.path
    case InQuery => u.query
    case InFragment => u.fragment
    case NoSlot => Absent
  }

  function SetField(u: Fields, t: Slot, f: Field): Fields {
    match t
    case InSchema => u.(schema := f)
    case InHost => u.(host := f)
    case InPath => u.(path := f)
    case InQuery => u.(query := f)
    case InFragment => u.(fragment := f)
    case NoSlot => u
  }

  /** One more character, or the first at p. */
  function Extend(u: Fields, t: Slot, prev: Slot, p: nat): Fields {
    var f := FieldIn(u, t);
    SetField(u, t, if t == prev && f.Run? then f.(len := f.len + 1) else Run(p, 1))
  }

  /** The first loop of http_parser_parse_url from position i on. */
  function Scan(s: seq<u8>, i: nat, st: State, prev: Slot, at: bool, u: Fields): Option<(Fields, bool)>
    requires i <= |s|
    decreases |s| - i
  {
    if i == |s| then Some((u, at))
    else
      var st' := UrlChar(st, s[i]);
      var t := SlotOf(st');
      if st'.Dead? then None
      else if t.NoSlot? then Scan(s, i + 1, st', prev, at, u)
      else Scan(s, i + 1, st', t, at || st'.ServerWithAt?, Extend(u, t, prev, i))
  }

  // ---- the same by spans

  /** Position after the characters of a class at i. */
  function Span(s: seq<u8>, i: nat, P: u8 -> bool): (j: nat)
    requires i <= |s|
    ensures i <= j <= |s| && (forall k | i <= k < j :: P(s[k])) && (j < |s| ==> !P(s[j]))
    decreases |s| - i
  {
    if i < |s| && P(s[i]) then Span(s, i + 1, P) else i
  }

  function RunOf(i: nat, j: nat): Field { if i < j then Run(i, j - i) else Absent }

  predicate IsHash(c: u8) { c == Hash }
  predicate FragmentChar(c: u8) { IsUrlChar(c) || c == Question || c == Hash }
  predicate QueryChar(c: u8) { IsUrlChar(c) || c == Question }
  predicate ServerCharacter(c: u8) { IsUserinfo(c) || c == 91 || c == 93 || c == AtSign }

  /** A fragment after any number of # signs. */
  function FragmentAt(s: seq<u8>, i: nat, u: Fields): Option<Fields>
    requires i <= |s|
  {
    var g := Span(s, i, IsHash);
    var h := Span(s, g, FragmentChar);
    if h < |s| then None else Some(u.(fragment := RunOf(g, h)))
  }

  function QueryAt(s: seq<u8>, i: nat, u: Fields): Option<Fields>
    requires i <= |s|
  {
    var r := Span(s, i, QueryChar);
    var v := u.(query := RunOf(i, r));
    if r == |s| then Some(v) else if s[r] == Hash then FragmentAt(s, r + 1, v) else None
  }

  /** A path, of which the first character is checked already. */
  function PathAt(s: seq<u8>, i: nat, u: Fields): Option<Fields>
    requires i < |s|
  {
    var r := Span(s, i + 1, IsUrlChar);
    var v := u.(path := RunOf(i, r));
    if r == |s| then Some(v)
    else if s[r] == Question then QueryAt(s, r + 1, v)
    else if s[r] == Hash then FragmentAt(s, r + 1, v)
    else None
  }

  predicate TwoAts(s: seq<u8>, i: nat, j: nat)
    requires i <= j <= |s|
  {
    exists k | i < k < j :: s[k - 1] == AtSign && s[k] == AtSign
  }

  predicate SomeAt(s: seq<u8>, i: nat, j: nat)
    requires i <= j <= |s|
  {
    exists k | i <= k < j :: s[k] == AtSign
  }

  function With(o: Option<Fields>, at: bool): Option<(Fields, bool)> {
    match o case None => None case Some(u) => Some((u, at))
  }

  /** What may follow the server part. */
  function AfterServer(s: seq<u8>, e: nat, v: Fields): Option<Fields>
    requires e <= |s|
  {
    if e == |s| then Some(v)
    else if s[e] == Slash then PathAt(s, e, v)
    else if s[e] == Question then QueryAt(s, e + 1, v)
    else None
  }

  /** The part between // and the path, and whether it has an @. */
  function ServerAt(s: seq<u8>, i: nat, u: Fields): Option<(Fields, bool)>
    requires i <= |s|
  {
    var e := Span(s, i, ServerCharacter);
    var v := u.(host := RunOf(i, e));
    if TwoAts(s, i, e) then None
    else
      With(AfterServer(s, e, v), SomeAt(s, i, e))
  }

  /** What may follow the schema; too short a URL is refused later. */
  function AfterSchema(s: seq<u8>, e: nat, u: Fields): Option<(Fields, bool)>
    requires e <= |s|
  {
    var rest := s[e..];
    if rest <= [Colon, Slash] then Some((u, false))
    else if [Colon, Slash, Slash] <= rest then ServerAt(s, e + 3, u)
    else None
  }

  /** The whole: a path, or a schema and what follows ://. */
  function UrlAt(s: seq<u8>, connect: bool): Option<(Fields, bool)>
    requires s != []
  {
    if connect then ServerAt(s, 0, NoFields)
    else if s[0] == Slash || s[0] == 42 then
      With(PathAt(s, 0, NoFields), false)
    else if !IsAlpha(s[0]) then None
    else
      var e := Span(s, 0, IsAlpha);
      AfterSchema(s, e, NoFields.(schema := RunOf(0, e)))
  }

  // ---- the loop computes the spans

  lemma ScanStep(s: seq<u8>, i: nat, st: State, prev: Slot, at: bool, u: Fields)
    requires i <= |s|
    ensures Scan(s, i, st, prev, at, u) ==
      if i == |s| then Some((u, at))
      else
        var st' := UrlChar(st, s[i]);
        var t := SlotOf(st');
        if st'.Dead? then None
        else if t.NoSlot? then Scan(s, i + 1, st', prev, at, u)
        else Scan(s, i + 1, st', t, at || st'.ServerWithAt?, Extend(u, t, prev, i))
  {
  }

  lemma SpanStep(s: seq<u8>, i: nat, P: u8 -> bool)
    requires i <= |s|
    ensures Span(s, i, P) == if i < |s| && P(s[i]) then Span(s, i + 1, P) else i
  {
  }

  lemma {:induction false} ScanFragment(s: seq<u8>, i: nat, at: bool, u: Fields, g: nat)
    requires g < i <= |s| && u.fragment == Run(g, i - g)
    ensures var h := Span(s, i, FragmentChar);
      Scan(s, i, Fragment, InFragment, at, u) == if h < |s| then None else Some((u.(fragment := Run(g, h - g)), at))
    decreases |s| - i
  {
    hide Scan, Span;
    ScanStep(s, i, Fragment, InFragment, at, u);
    SpanStep(s, i, FragmentChar);
    if i < |s| && FragmentChar(s[i]) {
      ScanFragment(s, i + 1, at, u.(fragment := Run(g, i + 1 - g)), g);
    }
  }

  lemma {:induction false} ScanFragmentStart(s: seq<u8>, i: nat, prev: Slot, at: bool, u: Fields)
    requires i <= |s| && prev != InFragment && u.fragment.Absent?
    ensures Scan(s, i, FragmentStart, prev, at, u) == With(FragmentAt(s, i, u), at)
    decreases |s| - i
  {
    hide Scan, Span;
    ScanStep(s, i, FragmentStart, prev, at, u);
    SpanStep(s, i, IsHash);
    SpanStep(s, i, FragmentChar);
    if i < |s| {
      if s[i] == Hash {
        ScanFragmentStart(s, i + 1, prev, at, u);
      } else if FragmentChar(s[i]) {
        ScanFragment(s, i + 1, at, u.(fragment := Run(i, 1)), i);
      }
    }
  }

  lemma {:induction false} ScanQuery(s: seq<u8>, i: nat, at: bool, u: Fields, q: nat)
    requires q < i <= |s| && u.query == Run(q, i - q) && u.fragment.Absent?
    ensures var r := Span(s, i, QueryChar);
      var v := u.(query := Run(q, r - q));
      Scan(s, i, Query, InQuery, at, u) ==
      With(if r == |s| then Some(v) else if s[r] == Hash then FragmentAt(s, r + 1, v) else None, at)
    decreases |s| - i
  {
    hide Scan, Span, FragmentAt;
    ScanStep(s, i, Query, InQuery, at, u);
    SpanStep(s, i, QueryChar);
    if i < |s| {
      if QueryChar(s[i]) {
        ScanQuery(s, i + 1, at, u.(query := Run(q, i + 1 - q)), q);
      } else if s[i] == Hash {
        ScanFragmentStart(s, i + 1, InQuery, at, u);
      }
    }
  }

  lemma ScanQueryStart(s: seq<u8>, i: nat, prev: Slot, at: bool, u: Fields)
    requires i <= |s| && prev != InQuery && prev != InFragment && u.query.Absent? && u.fragment.Absent?
    ensures Scan(s, i, QueryStart, prev, at, u) == With(QueryAt(s, i, u), at)
  {
    hide Scan, Span, FragmentAt;
    ScanStep(s, i, QueryStart, prev, at, u);
    SpanStep(s, i, QueryChar);
    if i < |s| {
      if QueryChar(s[i]) {
        ScanQuery(s, i + 1, at, u.(query := Run(i, 1)), i);
      } else if s[i] == Hash {
        ScanFragmentStart(s, i + 1, prev, at, u);
      }
    }
  }

  lemma {:induction false} ScanPath(s: seq<u8>, i: nat, at: bool, u: Fields, p: nat)
    requires p < i <= |s| && u.path == Run(p, i - p) && u.query.Absent? && u.fragment.Absent?
    ensures var r := Span(s, i, IsUrlChar);
      var v := u.(path := Run(p, r - p));
      Scan(s, i, Path, InPath, at, u) ==
      With(if r == |s| then Some(v)
           else if s[r] == Question then QueryAt(s, r + 1, v)
           else if s[r] == Hash then FragmentAt(s, r + 1, v)
           else None, at)
    decreases |s| - i
  {
    hide Scan, Span, FragmentAt, QueryAt;
    ScanStep(s, i, Path, InPath, at, u);
    SpanStep(s, i, IsUrlChar);
    if i < |s| {
      if IsUrlChar(s[i]) {
        ScanPath(s, i + 1, at, u.(path := Run(p, i + 1 - p)), p);
      } else if s[i] == Question {
        ScanQueryStart(s, i + 1, InPath, at, u);
      } else if s[i] == Hash {
        ScanFragmentStart(s, i + 1, InPath, at, u);
      }
    }
  }

  /** Nothing behind the server part is set yet. */
  predicate NoTail(u: Fields) { u.path.Absent? && u.query.Absent? && u.fragment.Absent? }

  /** The end of the server part. */
  lemma ServerEnds(s: seq<u8>, i: nat, st: State, prev: Slot, at: bool, u: Fields)
    requires i <= |s| && (st.ServerStart? || st.Server? || st.ServerWithAt?) && prev in {NoSlot, InSchema, InHost}
    requires NoTail(u) && (i < |s| ==> !ServerCharacter(s[i]))
    ensures Scan(s, i, st, prev, at, u) == With(AfterServer(s, i, u), at)
  {
    hide Scan, Span, FragmentAt, QueryAt;
    ScanStep(s, i, st, prev, at, u);
    if i < |s| {
      if s[i] == Slash {
        ScanPath(s, i + 1, at, u.(path := Run(i, 1)), i);
      } else if s[i] == Question {
        ScanQueryStart(s, i + 1, prev, at, u);
      }
    }
  }

  /** One character more. */
  lemma AtStep(s: seq<u8>, h: nat, i: nat)
    requires h < i < |s|
    ensures SomeAt(s, h, i + 1) <==> SomeAt(s, h, i) || s[i] == AtSign
    ensures TwoAts(s, h, i + 1) <==> TwoAts(s, h, i) || (s[i - 1] == AtSign && s[i] == AtSign)
  {
  }

  lemma AtsStay(s: seq<u8>, h: nat, i: nat, e: nat)
    requires h <= i <= e <= |s| && TwoAts(s, h, i)
    ensures TwoAts(s, h, e)
  {
  }

  /** Inside the server part, which began at h. */
  lemma {:induction false} ScanServer(s: seq<u8>, i: nat, st: State, u: Fields, h: nat)
    requires h < i <= |s| && u.host == Run(h, i - h) && NoTail(u) && !TwoAts(s, h, i)
    requires st == if s[i - 1] == AtSign then ServerWithAt else Server
    ensures var e := Span(s, i, ServerCharacter);
      Scan(s, i, st, InHost, SomeAt(s, h, i), u) ==
      if TwoAts(s, h, e) then None else With(AfterServer(s, e, u.(host := Run(h, e - h))), SomeAt(s, h, e))
    decreases |s| - i
  {
    hide Scan, AfterServer, Span, TwoAts, SomeAt;
    SpanStep(s, i, ServerCharacter);
    if i < |s| && ServerCharacter(s[i]) {
      ScanStep(s, i, st, InHost, SomeAt(s, h, i), u);
      AtStep(s, h, i);
      if s[i - 1] == AtSign && s[i] == AtSign {
        AtsStay(s, h, i + 1, Span(s, i, ServerCharacter));
      } else {
        ScanServer(s, i + 1, if s[i] == AtSign then ServerWithAt else Server, u.(host := Run(h, i + 1 - h)), h);
      }
    } else {
      ServerEnds(s, i, st, InHost, SomeAt(s, h, i), u);
    }
  }

  lemma ScanServerStart(s: seq<u8>, i: nat, prev: Slot, u: Fields)
    requires i <= |s| && prev in {NoSlot, InSchema} && u.host.Absent? && NoTail(u)
    ensures Scan(s, i, ServerStart, prev, false, u) == ServerAt(s, i, u)
  {
    hide Scan, AfterServer, Span;
    SpanStep(s, i, ServerCharacter);
    if i < |s| && ServerCharacter(s[i]) {
      ScanStep(s, i, ServerStart, prev, false, u);
      ScanServer(s, i + 1, if s[i] == AtSign then ServerWithAt else Server, u.(host := Run(i, 1)), i);
    } else {
      ServerEnds(s, i, ServerStart, prev, false, u);
    }
  }

  lemma {:induction false} ScanSchema(s: seq<u8>, i: nat, u: Fields)
    requires 0 < i <= |s| && u == NoFields.(schema := Run(0, i))
    ensures var e := Span(s, i, IsAlpha);
      Scan(s, i, Schema, InSchema, false, u) == AfterSchema(s, e, NoFields.(schema := Run(0, e)))
    decreases |s| - i
  {
    if i < |s| && IsAlpha(s[i]) {
      ScanSchema(s, i + 1, u.(schema := Run(0, i + 1)));
    } else {
      Slashes(s, i, u);
    }
  }

  /** The three delimiters behind the schema. */
  lemma Slashes(s: seq<u8>, i: nat, u: Fields)
    requires i <= |s| && u.host.Absent? && NoTail(u) && (i < |s| ==> !IsAlpha(s[i]))
    ensures Scan(s, i, Schema, InSchema, false, u) == AfterSchema(s, i, u)
  {
    hide ServerAt, Scan;
    var rest := s[i..];
    ScanStep(s, i, Schema, InSchema, false, u);
    if i < |s| && s[i] == Colon {
      assert rest[0] == Colon;
      ScanStep(s, i + 1, SchemaSlash, InSchema, false, u);
      if i + 1 < |s| && s[i + 1] == Slash {
        assert rest[1] == Slash;
        ScanStep(s, i + 2, SchemaSlashSlash, InSchema, false, u);
        if i + 2 < |s| && s[i + 2] == Slash {
          assert rest[2] == Slash;
          ScanServerStart(s, i + 3, InSchema, u);
        }
      }
    }
  }

  /** The loop finds the spans. */
  lemma ScanIsUrl(s: seq<u8>, connect: bool)
    requires s != []
    ensures Scan(s, 0, if connect then ServerStart else SpacesBeforeUrl, NoSlot, false, NoFields) == UrlAt(s, connect)
  {
    hide Scan, ServerAt, AfterSchema, QueryAt, FragmentAt, Span;
    SpanStep(s, 0, IsAlpha);
    ScanStep(s, 0, SpacesBeforeUrl, NoSlot, false, NoFields);
    if connect {
      ScanServerStart(s, 0, NoSlot, NoFields);
    } else if s[0] == Slash || s[0] == 42 {
      ScanPath(s, 1, false, NoFields.(path := Run(0, 1)), 0);
    } else if IsAlpha(s[0]) {
      ScanSchema(s, 1, NoFields.(schema := Run(0, 1)));
    }
  }
}
