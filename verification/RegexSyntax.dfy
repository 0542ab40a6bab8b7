/** Regular expressions as the parser sees them, and the parameters of one compilation. */
module RegexSyntax {
  import opened Bytes
  import opened CharSet

  /** Compilation flags. `conv` stands for the case-conversion tables: the result of
      lre_case_conv on a code point above 127. */
  datatype Env = Env(ignoreCase: bool, dotAll: bool, multiLine: bool, utf16: bool, sticky: bool, conv: cp -> cp)

  /** Cat holds the terms of an alternative, the earlier ones on the left; Alt holds the
      alternatives of a disjunction, the earlier ones on the left. A group without capture is
      its body. `max == INT32_MAX` means no upper bound. */
  datatype Re =
    | Empty
    | Chr(c: int)
    | AnyChar
    | DotChar
    | Class(points: seq<int>)
    | Bol
    | Eol
    | WordB(neg: bool)
    | Cat(l: Re, r: Re)
    | Alt(l: Re, r: Re)
    | Capture(body: Re)
    | Look(neg: bool, behind: bool, body: Re)
    | Quant(atom: Re, min: int, max: int, greedy: bool)

  /** Number of capturing groups. */
  function NCap(re: Re): nat {
    match re
    case Cat(l, r) => NCap(l) + NCap(r)
    case Alt(l, r) => NCap(l) + NCap(r)
    case Capture(b) => 1 + NCap(b)
    case Look(_, _, b) => NCap(b)
    case Quant(a, _, _, _) => NCap(a)
    case _ => 0
  }

  /** Every match consumes a character. */
  predicate NonNull(re: Re) {
    match re
    case Chr(_) | AnyChar | DotChar | Class(_) => true
    case Cat(l, r) => NonNull(l) || NonNull(r)
    case Alt(l, r) => NonNull(l) && NonNull(r)
    case Capture(b) => NonNull(b)
    case Quant(a, min, _, _) => min > 0 && NonNull(a)
    case _ => false
  }

  /** What the parser guarantees of the tree (code points, canonical classes, ordered counts),
      and that an unbounded lazy loop consumes a character on each turn: for those loops the
      code generator adds no check against empty iterations. */
  predicate Wf(re: Re) {
    match re
    case Chr(c) => 0 <= c <= 0x10ffff
    case Class(pts) => Canonical(pts)
    case Cat(l, r) => Wf(l) && Wf(r)
    case Alt(l, r) => Wf(l) && Wf(r)
    case Capture(b) => Wf(b)
    case Look(_, _, b) => Wf(b)
    case Quant(a, min, max, greedy) =>
      Wf(a) && 0 <= min <= max <= INT32_MAX && (!greedy && max == INT32_MAX ==> NonNull(a))
    case _ => true
  }

  /** lre_canonicalize when case is ignored: ASCII letters are folded here, the rest by the
      conversion table. */
  function Canon(env: Env, c: cp): cp {
    if !env.ignoreCase then c
    else if env.utf16 then
      if c < 128 then (if 65 <= c <= 90 then c + 32 else c) else env.conv(c)
    else
      if c < 128 then (if 97 <= c <= 122 then c - 32 else c) else env.conv(c)
  }

  /** Errors of the code generator. */
  datatype Error = TooManyRanges | TooManyCaptures | TooManyImbricatedQuantifiers

  datatype Outcome = Pass | Fault(error: Error)

  /** The first error met when generating code from left to right; cc captures have been
      numbered before. */
  function Check(re: Re, cc: nat): Outcome {
    match re
    case Class(pts) => if |pts| / 2 >= 65535 then Fault(TooManyRanges) else Pass
    case Cat(l, r) => (match Check(l, cc) case Pass => Check(r, cc + NCap(l)) case e => e)
    case Alt(l, r) => (match Check(l, cc) case Pass => Check(r, cc + NCap(l)) case e => e)
    case Capture(b) => if cc >= 255 then Fault(TooManyCaptures) else Check(b, cc + 1)
    case Look(_, _, b) => Check(b, cc)
    case Quant(a, _, _, _) => Check(a, cc)
    case _ => Pass
  }

  /** Without errors the capture numbers fit a byte. */
  lemma {:induction false} CheckCaptures(re: Re, cc: nat)
    requires Check(re, cc).Pass? && cc <= 255
    ensures cc + NCap(re) <= 255
  {
    match re
    case Cat(l, r) => CheckCaptures(l, cc); CheckCaptures(r, cc + NCap(l));
    case Alt(l, r) => CheckCaptures(l, cc); CheckCaptures(r, cc + NCap(l));
    case Capture(b) => CheckCaptures(b, cc + 1);
    case Look(_, _, b) => CheckCaptures(b, cc);
    case Quant(a, _, _, _) => CheckCaptures(a, cc);
    case _ =>
  }
}
