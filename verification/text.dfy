/** Models of the Python string operations the filter compiler relies on:
    `sep.join(xs)`, `%s` placeholders and `template % args`, `re.escape`
    and `shlex.split`. */
module Text {

  datatype Option<T> = None | Some(value: T)

  datatype Result<T, E> = Ok(value: T) | Err(error: E)

  /** Python's `sep.join(xs)`. */
  function Join(sep: string, xs: seq<string>): string
  {
    if |xs| == 0 then ""
    else if |xs| == 1 then xs[0]
    else xs[0] + sep + Join(sep, xs[1..])
  }

  /** Python's `[x] * n`. */
  function Repeat<T>(x: T, n: nat): (r: seq<T>)
    ensures |r| == n
    ensures forall i :: 0 <= i < n ==> r[i] == x
  {
    if n == 0 then [] else [x] + Repeat(x, n - 1)
  }

  /** Concatenation of a list of lists, in order. */
  function Flatten<T>(xss: seq<seq<T>>): seq<T>
  {
    if |xss| == 0 then [] else xss[0] + Flatten(xss[1..])
  }

  lemma FlattenAppend<T>(xss: seq<seq<T>>, yss: seq<seq<T>>)
    ensures Flatten(xss + yss) == Flatten(xss) + Flatten(yss)
  {
    if |xss| > 0 {
      assert (xss + yss)[1..] == xss[1..] + yss;
      FlattenAppend(xss[1..], yss);
    } else {
      assert xss + yss == yss;
    }
  }

  // ---------------------------------------------------------------------
  // Placeholders

  /** The number of `%s` placeholders in a template, read left to right. */
  function Placeholders(s: string): nat
  {
    if |s| < 2 then 0
    else if s[0] == '%' && s[1] == 's' then 1 + Placeholders(s[2..])
    else Placeholders(s[1..])
  }

  /** Python's `template % args` for templates whose only conversions are
      `%s`: each placeholder is replaced by the next argument, and the
      arguments themselves are not scanned again. `None` is the TypeError
      or ValueError Python raises when the arguments and the placeholders
      do not match up or a `%` starts some other conversion. `%%`, which
      Python and psycopg2 read as a literal `%`, is such a failure here: the
      templates of the core only ever hold a `%` that comes from a column
      name, and the theorems about them require that name to have none. */
  function Interpolate(t: string, args: seq<string>): Option<string>
  {
    if |t| == 0 then
      if |args| == 0 then Some("") else None
    else if t[0] == '%' then
      if |t| >= 2 && t[1] == 's' && |args| > 0 then
        match Interpolate(t[2..], args[1..])
        case Some(r) => Some(args[0] + r)
        case None => None
      else None
    else
      match Interpolate(t[1..], args)
      case Some(r) => Some([t[0]] + r)
      case None => None
  }

  /** A template that binds: every placeholder meets exactly one argument. */
  lemma {:induction false} InterpolateArity(t: string, args: seq<string>)
    requires Interpolate(t, args).Some?
    ensures Placeholders(t) == |args|
  {
    if |t| == 0 {
    } else if t[0] == '%' {
      InterpolateArity(t[2..], args[1..]);
    } else {
      InterpolateArity(t[1..], args);
      if |t| >= 2 {
        assert !(t[0] == '%');
      } else {
        assert Interpolate(t[1..], args) == Interpolate("", args);
      }
    }
  }

  /** A string without `%` is rendered as it stands and takes no argument. */
  lemma {:induction false} InterpolateLiteral(s: string)
    requires '%' !in s
    ensures Interpolate(s, []) == Some(s)
  {
    if |s| > 0 {
      assert s[0] in s;
      assert forall c :: c in s[1..] ==> c in s;
      InterpolateLiteral(s[1..]);
      assert [s[0]] + s[1..] == s;
    }
  }

  /** Binding distributes over concatenation: the arguments of the first
      part go to the first part's placeholders and the rest to the second. */
  lemma {:induction false} InterpolateConcat(a: string, b: string, xs: seq<string>, ys: seq<string>)
    requires Interpolate(a, xs).Some?
    ensures Interpolate(a + b, xs + ys) ==
      match Interpolate(b, ys)
      case Some(rb) => Some(Interpolate(a, xs).value + rb)
      case None => None
  {
    if |a| == 0 {
      assert |xs| == 0 && Interpolate(a, xs).value == "";
      assert a + b == b;
      assert xs + ys == ys;
      match Interpolate(b, ys) {
        case Some(rb) => assert "" + rb == rb;
        case None =>
      }
    } else if a[0] == '%' {
      assert (a + b)[2..] == a[2..] + b;
      assert (xs + ys)[1..] == xs[1..] + ys;
      InterpolateConcat(a[2..], b, xs[1..], ys);
      match Interpolate(b, ys) {
        case Some(rb) =>
          assert xs[0] + (Interpolate(a[2..], xs[1..]).value + rb) == (xs[0] + Interpolate(a[2..], xs[1..]).value) + rb;
        case None =>
      }
    } else {
      assert (a + b)[1..] == a[1..] + b;
      InterpolateConcat(a[1..], b, xs, ys);
      match Interpolate(b, ys) {
        case Some(rb) =>
          assert [a[0]] + (Interpolate(a[1..], xs).value + rb) == ([a[0]] + Interpolate(a[1..], xs).value) + rb;
        case None =>
      }
    }
  }

  /** The two-part form used everywhere below: both halves bind, so the
      whole binds to the concatenation of what they render to. */
  lemma InterpolateBoth(a: string, b: string, xs: seq<string>, ys: seq<string>)
    requires Interpolate(a, xs).Some? && Interpolate(b, ys).Some?
    ensures Interpolate(a + b, xs + ys) == Some(Interpolate(a, xs).value + Interpolate(b, ys).value)
  {
    InterpolateConcat(a, b, xs, ys);
  }

  /** A single placeholder binds its one argument. */
  lemma InterpolateSlot(x: string)
    ensures Interpolate("%s", [x]) == Some(x)
  {
    var t := "%s";
    assert |t| == 2 && t[0] == '%' && t[1] == 's';
    assert t[2..] == "";
    assert [x][1..] == [];
    assert Interpolate(t[2..], [x][1..]) == Some("");
    assert x + "" == x;
  }

  /** Wrapping a template in `%`-free literal text keeps its binding. */
  lemma InterpolateWrap(pre: string, t: string, post: string, xs: seq<string>)
    requires '%' !in pre && '%' !in post
    requires Interpolate(t, xs).Some?
    ensures Interpolate(pre + t + post, xs) == Some(pre + Interpolate(t, xs).value + post)
  {
    InterpolateLiteral(pre);
    InterpolateLiteral(post);
    InterpolateBoth(pre, t, [], xs);
    assert [] + xs == xs;
    InterpolateBoth(pre + t, post, xs, []);
    assert xs + [] == xs;
  }

  /** A literal and a slot after a bound template: the argument lands
      right after the literal. */
  lemma InterpolateSuffixSlot(t: string, lit: string, xs: seq<string>, a: string)
    requires '%' !in lit
    requires Interpolate(t, xs).Some?
    ensures Interpolate(t + lit + "%s", xs + [a]) == Some(Interpolate(t, xs).value + lit + a)
  {
    InterpolateLiteral(lit);
    InterpolateSlot(a);
    InterpolateBoth(t, lit, xs, []);
    assert xs + [] == xs;
    InterpolateBoth(t + lit, "%s", xs, [a]);
  }

  /** Two bound templates joined by a `%`-free separator bind to the join
      of their bindings. */
  lemma InterpolatePair(sep: string, r: string, p: string, xs: seq<string>, ys: seq<string>)
    requires '%' !in sep
    requires Interpolate(r, xs).Some? && Interpolate(p, ys).Some?
    ensures Interpolate(Join(sep, [r, p]), xs + ys) == Some(Join(sep, [Interpolate(r, xs).value, Interpolate(p, ys).value]))
  {
    var r', p' := Interpolate(r, xs).value, Interpolate(p, ys).value;
    assert [r, p][1..] == [p];
    assert [r', p'][1..] == [p'];
    InterpolateLiteral(sep);
    InterpolateBoth(r, sep, xs, []);
    assert xs + [] == xs;
    InterpolateBoth(r + sep, p, xs, ys);
  }

  /** Binding keeps a template's leading literal character. */
  lemma InterpolateHead(t: string, xs: seq<string>)
    requires |t| > 0 && t[0] != '%'
    requires Interpolate(t, xs).Some?
    ensures |Interpolate(t, xs).value| > 0 && Interpolate(t, xs).value[0] == t[0]
  {
  }

  /** Joining bound templates with a `%`-free separator binds the
      concatenated argument lists, each template receiving its own. */
  lemma {:induction false} InterpolateJoin(sep: string, ts: seq<string>, argss: seq<seq<string>>)
    requires '%' !in sep
    requires |ts| == |argss|
    requires forall i :: 0 <= i < |ts| ==> Interpolate(ts[i], argss[i]).Some?
    ensures Interpolate(Join(sep, ts), Flatten(argss)) ==
      Some(Join(sep, seq(|ts|, i requires 0 <= i < |ts| => Interpolate(ts[i], argss[i]).value)))
  {
    var rendered := seq(|ts|, i requires 0 <= i < |ts| => Interpolate(ts[i], argss[i]).value);
    if |ts| == 0 {
    } else if |ts| == 1 {
      assert Flatten(argss) == argss[0] + Flatten(argss[1..]);
      assert argss[1..] == [];
      assert Flatten(argss) == argss[0];
    } else {
      InterpolateJoin(sep, ts[1..], argss[1..]);
      var tail := seq(|ts[1..]|, i requires 0 <= i < |ts[1..]| => Interpolate(ts[1..][i], argss[1..][i]).value);
      assert tail == rendered[1..];
      InterpolateLiteral(sep);
      InterpolateBoth(ts[0], sep, argss[0], []);
      assert argss[0] + [] == argss[0];
      InterpolateBoth(ts[0] + sep, Join(sep, ts[1..]), argss[0], Flatten(argss[1..]));
    }
  }

  /** A string made of `%`-free text and `%s` slots has no other `%`. */
  lemma {:induction false} NoPercentJoin(sep: string, xs: seq<string>)
    requires '%' !in sep
    requires forall i :: 0 <= i < |xs| ==> '%' !in xs[i]
    ensures '%' !in Join(sep, xs)
  {
    if |xs| > 1 {
      NoPercentJoin(sep, xs[1..]);
    }
  }

  // ---------------------------------------------------------------------
  // re.escape

  /** The characters Python 3.7's `re.escape` prefixes with a backslash. */
  predicate ReSpecial(c: char)
  {
    c in "()[]{}?*+-|^$\\.&~# \t\n\r\U{B}\U{C}"
  }

  /** Python 3.7's `re.escape`. */
  function ReEscape(s: string): string
  {
    if |s| == 0 then ""
    else (if ReSpecial(s[0]) then ['\\', s[0]] else [s[0]]) + ReEscape(s[1..])
  }

  /** The metacharacters of a POSIX or Python regular expression. */
  predicate RegexMeta(c: char)
  {
    c in ".^$*+?{}[]\\|()"
  }

  /** A letter or a digit: after a backslash these start an escape with a
      meaning of its own (`\d`, `\w`, `\b`, a back reference `\1`). */
  predicate Alphanumeric(c: char)
  {
    'a' <= c <= 'z' || 'A' <= c <= 'Z' || '0' <= c <= '9'
  }

  /** Reads a regular expression made only of literal atoms (a plain
      character, or a backslash quoting a character that is not a letter
      or a digit) and gives the text it matches; `None` when the expression
      has any operator or class, shorthand or back-reference escape. */
  function LiteralText(r: string): Option<string>
  {
    if |r| == 0 then Some("")
    else if r[0] == '\\' then
      if |r| >= 2 && !Alphanumeric(r[1]) then
        match LiteralText(r[2..])
        case Some(t) => Some([r[1]] + t)
        case None => None
      else None
    else if RegexMeta(r[0]) then None
    else
      match LiteralText(r[1..])
      case Some(t) => Some([r[0]] + t)
      case None => None
  }

  /** A backslash before a letter or a digit is an operator, not a quoted
      character. */
  lemma EscapedLetterIsOperator(c: char)
    requires Alphanumeric(c)
    ensures LiteralText(['\\', c]) == None
  {
  }

  /** Escaping closes the injection vector: the escaped pattern is a pure
      literal regular expression that stands for exactly the input text. */
  lemma {:induction false} ReEscapeIsLiteral(s: string)
    ensures LiteralText(ReEscape(s)) == Some(s)
  {
    if |s| > 0 {
      ReEscapeIsLiteral(s[1..]);
      var head := if ReSpecial(s[0]) then ['\\', s[0]] else [s[0]];
      assert ReEscape(s) == head + ReEscape(s[1..]);
      if ReSpecial(s[0]) {
        assert ReEscape(s)[2..] == ReEscape(s[1..]);
      } else {
        assert !RegexMeta(s[0]);
        assert ReEscape(s)[1..] == ReEscape(s[1..]);
      }
      assert [s[0]] + s[1..] == s;
    }
  }

  /** Escaping adds no `%`, so an escaped term never creates a placeholder. */
  lemma {:induction false} ReEscapeNoPercent(s: string)
    requires '%' !in s
    ensures '%' !in ReEscape(s)
  {
    if |s| > 0 {
      assert s[0] in s;
      assert forall c :: c in s[1..] ==> c in s;
      ReEscapeNoPercent(s[1..]);
    }
  }

  // ---------------------------------------------------------------------
  // shlex.split

  datatype ShlexError = NoClosingQuotation | NoEscapedCharacter

  /** The state of `shlex` in POSIX mode with whitespace splitting:
      between tokens, inside a word, inside single or double quotes, or just
      after a backslash met in a word or in double quotes. */
  datatype LexState = Between | Word | InSingle | InDouble | EscWord | EscDouble

  predicate ShlexSpace(c: char)
  {
    c == ' ' || c == '\t' || c == '\r' || c == '\n'
  }

  /** The reader between characters: its state, the token read so far and
      the tokens already emitted. */
  datatype Reader = Reader(st: LexState, token: string, acc: seq<string>)

  /** What the `shlex` reader does with one character. */
  function Step(r: Reader, c: char): Reader
  {
    var token, acc := r.token, r.acc;
    match r.st
    case Between =>
      if ShlexSpace(c) then Reader(Between, "", acc)
      else if c == '\\' then Reader(EscWord, "", acc)
      else if c == '\'' then Reader(InSingle, "", acc)
      else if c == '"' then Reader(InDouble, "", acc)
      else Reader(Word, [c], acc)
    case Word =>
      if ShlexSpace(c) then Reader(Between, "", acc + [token])
      else if c == '\\' then Reader(EscWord, token, acc)
      else if c == '\'' then Reader(InSingle, token, acc)
      else if c == '"' then Reader(InDouble, token, acc)
      else Reader(Word, token + [c], acc)
    case InSingle =>
      if c == '\'' then Reader(Word, token, acc)
      else Reader(InSingle, token + [c], acc)
    case InDouble =>
      if c == '"' then Reader(Word, token, acc)
      else if c == '\\' then Reader(EscDouble, token, acc)
      else Reader(InDouble, token + [c], acc)
    case EscWord =>
      Reader(Word, token + [c], acc)
    case EscDouble =>
      if c == '\\' || c == '"' then Reader(InDouble, token + [c], acc)
      else Reader(InDouble, token + ['\\', c], acc)
  }

  /** What the reader does at the end of the text. */
  function Finish(r: Reader): Result<seq<string>, ShlexError>
  {
    match r.st
    case Between => Ok(r.acc)
    case Word => Ok(r.acc + [r.token])
    case InSingle => Err(NoClosingQuotation)
    case InDouble => Err(NoClosingQuotation)
    case EscWord => Err(NoEscapedCharacter)
    case EscDouble => Err(NoEscapedCharacter)
  }

  /** The `shlex` reader run over `s` from position `i`. */
  function Lex(s: string, i: nat, r: Reader): Result<seq<string>, ShlexError>
    requires i <= |s|
    decreases |s| - i
  {
    if i == |s| then Finish(r) else Lex(s, i + 1, Step(r, s[i]))
  }

  /** Python's `shlex.split(s)`. */
  function ShlexSplit(s: string): Result<seq<string>, ShlexError>
  {
    Lex(s, 0, Reader(Between, "", []))
  }

  /** No quote and no backslash: nothing for `shlex` to interpret. */
  predicate Unquoted(s: string)
  {
    forall i :: 0 <= i < |s| ==> s[i] != '\\' && s[i] != '\'' && s[i] != '"'
  }

  /** The length of the run of non-whitespace characters `s` starts with. */
  function WordLength(s: string): (n: nat)
    ensures n <= |s|
    ensures forall i :: 0 <= i < n ==> !ShlexSpace(s[i])
    ensures n < |s| ==> ShlexSpace(s[n])
  {
    if |s| == 0 || ShlexSpace(s[0]) then 0 else 1 + WordLength(s[1..])
  }

  /** The maximal runs of non-whitespace characters of `s`, in order. */
  function Words(s: string): seq<string>
    decreases |s|
  {
    if |s| == 0 then []
    else if ShlexSpace(s[0]) then Words(s[1..])
    else
      var n := WordLength(s);
      [s[..n]] + Words(s[n..])
  }

  /** Each word is non-empty and holds no whitespace. */
  lemma {:induction false} WordsAreWords(s: string)
    ensures forall k :: 0 <= k < |Words(s)| ==>
      |Words(s)[k]| > 0 && forall j :: 0 <= j < |Words(s)[k]| ==> !ShlexSpace(Words(s)[k][j])
    decreases |s|
  {
    if |s| > 0 {
      if ShlexSpace(s[0]) {
        WordsAreWords(s[1..]);
      } else {
        var n := WordLength(s);
        WordsAreWords(s[n..]);
        assert Words(s) == [s[..n]] + Words(s[n..]);
      }
    }
  }

  /** Without quotes or backslashes, `shlex.split` splits on whitespace
      into the words of the text. */
  lemma ShlexSplitUnquoted(s: string)
    requires Unquoted(s)
    ensures ShlexSplit(s) == Ok(Words(s))
  {
    LexBetween(s, 0, []);
    assert s[0..] == s;
    assert [] + Words(s) == Words(s);
  }

  lemma {:induction false} LexBetween(s: string, i: nat, acc: seq<string>)
    requires Unquoted(s) && i <= |s|
    ensures Lex(s, i, Reader(Between, "", acc)) == Ok(acc + Words(s[i..]))
    decreases |s| - i, 0
  {
    if i == |s| {
      assert acc + [] == acc;
    } else {
      var c := s[i];
      assert s[i..][1..] == s[i + 1..];
      if ShlexSpace(c) {
        LexBetween(s, i + 1, acc);
      } else {
        LexWord(s, i + 1, [c], acc);
        var m := WordLength(s[i + 1..]);
        assert WordLength(s[i..]) == 1 + m;
        assert s[i..][..1 + m] == [c] + s[i + 1..i + 1 + m];
        assert s[i..][1 + m..] == s[i + 1 + m..];
        assert Words(s[i..]) == [[c] + s[i + 1..i + 1 + m]] + Words(s[i + 1 + m..]);
        assert acc + [[c] + s[i + 1..i + 1 + m]] + Words(s[i + 1 + m..]) == acc + Words(s[i..]);
      }
    }
  }

  lemma {:induction false} LexWord(s: string, i: nat, token: string, acc: seq<string>)
    requires Unquoted(s) && i <= |s|
    ensures var n := WordLength(s[i..]);
      Lex(s, i, Reader(Word, token, acc)) == Ok(acc + [token + s[i..i + n]] + Words(s[i + n..]))
    decreases |s| - i, 2
  {
    if i == |s| {
      assert s[i..] == [];
      assert token + s[i..i] == token;
      assert acc + [token] + [] == acc + [token];
    } else if ShlexSpace(s[i]) {
      LexWordSpace(s, i, token, acc);
    } else {
      LexWordChar(s, i, token, acc);
    }
  }

  /** A space ends the word being read. */
  lemma {:induction false} LexWordSpace(s: string, i: nat, token: string, acc: seq<string>)
    requires Unquoted(s) && i < |s| && ShlexSpace(s[i])
    ensures var n := WordLength(s[i..]);
      Lex(s, i, Reader(Word, token, acc)) == Ok(acc + [token + s[i..i + n]] + Words(s[i + n..]))
    decreases |s| - i, 1
  {
    LexWordStep(s, i, token, acc);
    LexBetween(s, i + 1, acc + [token]);
    SpaceStep(s, i);
    assert Lex(s, i, Reader(Word, token, acc)) == Ok(acc + [token] + Words(s[i..]));
    assert token + s[i..i] == token;
  }

  /** Any other character of unquoted text joins the word being read. */
  lemma {:induction false} LexWordChar(s: string, i: nat, token: string, acc: seq<string>)
    requires Unquoted(s) && i < |s| && !ShlexSpace(s[i])
    ensures var n := WordLength(s[i..]);
      Lex(s, i, Reader(Word, token, acc)) == Ok(acc + [token + s[i..i + n]] + Words(s[i + n..]))
    decreases |s| - i, 1
  {
    LexWordStep(s, i, token, acc);
    LexWord(s, i + 1, token + [s[i]], acc);
    WordStep(s, i, token);
    var m := WordLength(s[i + 1..]);
    var w := token + [s[i]] + s[i + 1..i + 1 + m];
    assert Lex(s, i, Reader(Word, token, acc)) == Ok(acc + [w] + Words(s[i + 1 + m..]));
    assert w == token + s[i..i + WordLength(s[i..])];
  }

  /** One step of the reader inside an unquoted word. */
  lemma LexWordStep(s: string, i: nat, token: string, acc: seq<string>)
    requires Unquoted(s) && i < |s|
    ensures Lex(s, i, Reader(Word, token, acc)) ==
      if ShlexSpace(s[i]) then Lex(s, i + 1, Reader(Between, "", acc + [token]))
      else Lex(s, i + 1, Reader(Word, token + [s[i]], acc))
  {
  }

  /** A space ends the word: the words from `i` are those after it. */
  lemma SpaceStep(s: string, i: nat)
    requires i < |s| && ShlexSpace(s[i])
    ensures WordLength(s[i..]) == 0 && Words(s[i..]) == Words(s[i + 1..])
  {
    assert s[i..][1..] == s[i + 1..];
  }

  /** A non-space character extends the word by one. */
  lemma WordStep(s: string, i: nat, token: string)
    requires i < |s| && !ShlexSpace(s[i])
    ensures WordLength(s[i..]) == 1 + WordLength(s[i + 1..])
    ensures var m := WordLength(s[i + 1..]);
      token + [s[i]] + s[i + 1..i + 1 + m] == token + s[i..i + 1 + m]
  {
    assert s[i..][1..] == s[i + 1..];
  }

  // ---------------------------------------------------------------------
  // Numbers

  function DigitChar(d: nat): char
    requires d < 10
  {
    "0123456789"[d]
  }

  function NatToDecimal(n: nat): (r: string)
    ensures |r| > 0
    decreases n
  {
    if n < 10 then [DigitChar(n)] else NatToDecimal(n / 10) + [DigitChar(n % 10)]
  }

  /** Python's `str(n)` for an integer. */
  function IntToDecimal(n: int): string
  {
    if n < 0 then "-" + NatToDecimal(-n) else NatToDecimal(n)
  }
}
