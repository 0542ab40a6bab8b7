/** The backtracking interpreter as a transition system: one step per instruction and one
    per entry taken from the backtrack stack. */
module RegexVM {
  import opened Options
  import opened Bytes
  import opened RegexSyntax
  import opened RegexText
  import opened RegexCode
  import opened RegexRange
  import opened RegexMatch

  /** What one execution does not change: the subject, the program, the number of captures
      and the operand-stack size announced in the program header. */
  datatype Machine = Machine(x: Subject, code: seq<u8>, ncap: nat, stackMax: nat)

  /** Registers of the interpreter: program counter, position, captures and operand stack
      (its top at the end). */
  datatype Thread = Thread(pc: int, pos: int, caps: seq<int>, stk: seq<int>)

  /** An entry of the backtrack stack, with the registers to go back to. */
  datatype Entry =
    | Split(t: Thread)
    | Ahead(neg: bool, t: Thread)
    | Retry(t: Thread, count: int)

  /** Run: about to execute the instruction at pc. Unwind: a match (ok) or a failure is
      reported to the topmost (last) entry of the backtrack stack. Crash: the program made the
      interpreter leave its buffers. */
  datatype Config =
    | Run(t: Thread, bt: seq<Entry>)
    | Unwind(ok: bool, kept: seq<int>, todo: seq<Entry>)
    | Done(matched: bool, captures: seq<int>)
    | Crash

  function Fail(bt: seq<Entry>): Config { Unwind(false, [], bt) }

  /** Result of the nested run of a simple atom. */
  datatype Simple = End(pos: int) | NoMatch | Bad

  /** The character instructions: does i accept the character read? */
  predicate Accepts(x: Subject, i: Insn, c: cp) {
    match i
    case Char(k) => Canon(x.env, c) == k
    case Char32(k) => Canon(x.env, c) == k
    case Dot => !IsLineTerminator(c)
    case Any => true
    case Range(rs) => RangeTest(rs, false, Canon(x.env, c))
    case Range32(rs) => RangeTest(rs, true, Canon(x.env, c))
    case _ => false
  }

  predicate IsCharInsn(i: Insn) {
    i.Char? || i.Char32? || i.Dot? || i.Any? || i.Range? || i.Range32?
  }

  predicate IsAssertInsn(i: Insn) {
    i.LineStart? || i.LineEnd? || i.WordBoundary? || i.NotWordBoundary?
  }

  predicate AssertHolds(x: Subject, i: Insn, p: int)
    requires IsAssertInsn(i) && 0 <= p <= |x.text.units|
  {
    match i
    case LineStart => AtLineStart(x.text, x.env.multiLine, p)
    case LineEnd => AtLineEnd(x.text, x.env.multiLine, p)
    case WordBoundary => AtWordBoundary(x.text, p)
    case NotWordBoundary => !AtWordBoundary(x.text, p)
  }

  /** Position after a character or assertion instruction, if it accepts. */
  function Advance(x: Subject, i: Insn, p: int): Option<int>
    requires (IsCharInsn(i) || IsAssertInsn(i)) && 0 <= p <= |x.text.units|
    ensures Advance(x, i, p).Some? ==> p <= Advance(x, i, p).value <= |x.text.units|
  {
    if IsCharInsn(i) then
      if p < |x.text.units| && Accepts(x, i, CharAt(x.text, p)) then Some(Next(x.text, p)) else None
    else if AssertHolds(x, i, p) then Some(p) else None
  }

  /** The nested, non-backtracking run of the atom of a simple quantifier. */
  function RunSimple(m: Machine, pc: int, p: int): Simple
    requires 0 <= p <= |m.x.text.units|
    ensures RunSimple(m, pc, p).End? ==> p <= RunSimple(m, pc, p).pos <= |m.x.text.units|
    decreases |m.code| - pc
  {
    match Decode(m.code, pc)
    case None => Bad
    case Some(i) =>
      if i.Match? then End(p)
      else if !IsCharInsn(i) && !IsAssertInsn(i) then Bad
      else match Advance(m.x, i, p)
        case None => NoMatch
        case Some(q) => RunSimple(m, pc + ISize(i), q)
  }

  /** Repeat a simple atom while it matches, at most max times: turns made and end position.
      None when the atom is not simple or a turn consumes nothing. */
  function Repeat(m: Machine, pc: int, p: int, q: nat, max: int): Option<(int, int)>
    requires 0 <= p <= |m.x.text.units|
    ensures Repeat(m, pc, p, q, max).Some? ==> p <= Repeat(m, pc, p, q, max).value.1 <= |m.x.text.units|
    ensures Repeat(m, pc, p, q, max).Some? ==> q <= Repeat(m, pc, p, q, max).value.0
    decreases |m.x.text.units| - p
  {
    match RunSimple(m, pc, p)
    case Bad => None
    case NoMatch => Some((q, p))
    case End(p1) =>
      if p1 == p then None
      else if q + 1 >= max && max != INT32_MAX then Some((q + 1, p1))
      else Repeat(m, pc, p1, q + 1, max)
  }

  /** n characters back. */
  function BackN(t: Text, p: int, n: nat): Option<int>
    ensures BackN(t, p, n).Some? && 0 <= p <= |t.units| ==> 0 <= BackN(t, p, n).value <= p
  {
    if n == 0 then Some(p)
    else if 0 < p <= |t.units| then BackN(t, Back(t, p), n - 1) else None
  }

  function Top(stk: seq<int>): int
    requires stk != []
  {
    stk[|stk| - 1]
  }

  function Pop<T>(stk: seq<T>): seq<T>
    requires stk != []
  {
    stk[..|stk| - 1]
  }

  /** Execute i, with pc already past it. */
  function Exec(m: Machine, i: Insn, t: Thread, bt: seq<Entry>): Config {
    var n := |m.x.text.units|;
    if !(0 <= t.pos <= n) then Crash
    else
      match i
      case Char(_) | Char32(_) | Dot | Any | Range(_) | Range32(_)
         | LineStart | LineEnd | WordBoundary | NotWordBoundary =>
        (match Advance(m.x, i, t.pos)
         case None => Fail(bt)
         case Some(q) => Run(t.(pos := q), bt))
      case Goto(off) => Run(t.(pc := t.pc + off), bt)
      case SplitGotoFirst(off) => Run(t.(pc := t.pc + off), bt + [Split(t)])
      case SplitNextFirst(off) => Run(t, bt + [Split(t.(pc := t.pc + off))])
      case Match => Unwind(true, t.caps, bt)
      case SaveStart(k) => if k < m.ncap then Run(t.(caps := SetCap(t.caps, 2 * k, t.pos)), bt) else Crash
      case SaveEnd(k) => if k < m.ncap then Run(t.(caps := SetCap(t.caps, 2 * k + 1, t.pos)), bt) else Crash
      case SaveReset(lo, hi) => if hi < m.ncap then Run(t.(caps := ResetCaps(t.caps, lo, hi)), bt) else Crash
      case PushI32(v) => if |t.stk| < m.stackMax then Run(t.(stk := t.stk + [v]), bt) else Crash
      case PushCharPos => if |t.stk| < m.stackMax then Run(t.(stk := t.stk + [t.pos]), bt) else Crash
      case Drop => if t.stk != [] then Run(t.(stk := Pop(t.stk)), bt) else Crash
      case Loop(off) =>
        if t.stk == [] then Crash
        else
          var left := Top(t.stk) - 1;
          Run(t.(stk := Pop(t.stk) + [left], pc := if left != 0 then t.pc + off else t.pc), bt)
      case BneCharPos(off) =>
        if t.stk == [] then Crash
        else Run(t.(stk := Pop(t.stk), pc := if Top(t.stk) != t.pos then t.pc + off else t.pc), bt)
      case Lookahead(off) => Run(t, bt + [Ahead(false, t.(pc := t.pc + off))])
      case NegativeLookahead(off) => Run(t, bt + [Ahead(true, t.(pc := t.pc + off))])
      case Prev => if t.pos == 0 then Fail(bt) else Run(t.(pos := Back(m.x.text, t.pos)), bt)
      case Greedy(next, min, max, _) =>
        match Repeat(m, t.pc, t.pos, 0, max)
        case None => Crash
        case Some((q, p)) =>
          if q < min then Fail(bt)
          else
            Run(t.(pc := t.pc + next, pos := p),
                if q > min then bt + [Retry(t.(pc := t.pc - 16, pos := p), q - min)] else bt)
  }

  /** Report the outcome to the topmost entry of the backtrack stack. */
  function Resume(m: Machine, ok: bool, caps: seq<int>, bt: seq<Entry>): Config {
    if bt == [] then Done(ok, caps)
    else
      var e, rest := bt[|bt| - 1], bt[..|bt| - 1];
      match e
      case Split(t) => if ok then Unwind(true, caps, rest) else Run(t, rest)
      case Ahead(neg, t) =>
        if ok == neg then Fail(rest)
        else Run(if neg then t else t.(caps := caps), rest)
      case Retry(t, count) =>
        if ok then Unwind(true, caps, rest)
        else
          match Decode(m.code, t.pc - 1)
          case Some(Greedy(next, min, max, chars)) =>
            (if chars < 0 then Crash
             else match BackN(m.x.text, t.pos, chars)
               case None => Crash
               case Some(p) =>
                 Run(t.(pc := t.pc + 16 + next, pos := p),
                     if count - 1 == 0 then rest else rest + [Retry(t.(pos := p), count - 1)]))
          case _ => Crash
  }

  function Step(m: Machine, c: Config): Config {
    match c
    case Run(t, bt) =>
      (match Decode(m.code, t.pc)
       case None => Crash
       case Some(i) => Exec(m, i, t.(pc := t.pc + ISize(i)), bt))
    case Unwind(ok, caps, bt) => Resume(m, ok, caps, bt)
    case _ => c
  }

  function Steps(m: Machine, n: nat, c: Config): Config
    decreases n
  {
    if n == 0 then c else Steps(m, n - 1, Step(m, c))
  }

  /** d is reached from c. */
  ghost predicate Reaches(m: Machine, c: Config, d: Config) {
    exists n: nat :: Steps(m, n, c) == d
  }

  lemma {:induction false} StepsAdd(m: Machine, a: nat, b: nat, c: Config)
    ensures Steps(m, a + b, c) == Steps(m, b, Steps(m, a, c))
    decreases a
  {
    if a > 0 { StepsAdd(m, a - 1, b, Step(m, c)); }
  }

  lemma ReachesRefl(m: Machine, c: Config)
    ensures Reaches(m, c, c)
  {
    assert Steps(m, 0, c) == c;
  }

  lemma ReachesStep(m: Machine, c: Config, d: Config)
    requires Reaches(m, Step(m, c), d)
    ensures Reaches(m, c, d)
  {
    var n: nat :| Steps(m, n, Step(m, c)) == d;
    assert Steps(m, n + 1, c) == d;
  }

  lemma ReachesTrans(m: Machine, c: Config, d: Config, e: Config)
    requires Reaches(m, c, d) && Reaches(m, d, e)
    ensures Reaches(m, c, e)
  {
    var a: nat :| Steps(m, a, c) == d;
    var b: nat :| Steps(m, b, d) == e;
    StepsAdd(m, a, b, c);
  }
}
