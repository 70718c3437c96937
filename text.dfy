/**
 * The string operations the rule-file store is built from: Go's
 * `strings.Split(s, "\n")`, `strings.Contains` and the `%q` quoting of a
 * rule body. `Join` is the inverse of `Split` the proofs reason with.
 */
module Text {
  import opened Wrappers

  /** A string with no line break in it. */
  predicate IsLine(s: string)
  {
    '\n' !in s
  }

  /** The pieces of `s` between line breaks, as `strings.Split(s, "\n")` returns them. */
  function Split(s: string): (lines: seq<string>)
    ensures |lines| >= 1
    ensures forall l :: l in lines ==> IsLine(l)
  {
    if s == [] then [""]
    else
      var rest := Split(s[1..]);
      assert rest[0] in rest && forall l :: l in rest[1..] ==> l in rest;
      if s[0] == '\n' then [""] + rest
      else [[s[0]] + rest[0]] + rest[1..]
  }

  /** The lines put back together with line breaks between them; a proof device, the inverse of `Split`. */
  function Join(lines: seq<string>): string
  {
    if |lines| == 0 then ""
    else if |lines| == 1 then lines[0]
    else lines[0] + "\n" + Join(lines[1..])
  }

  /** Each line followed by its own line break, the buffer a line-by-line rewrite produces. */
  function Terminated(lines: seq<string>): string
  {
    if lines == [] then "" else lines[0] + "\n" + Terminated(lines[1..])
  }

  /** Joining the pieces of a split gives back the string. */
  lemma {:induction false} JoinSplit(s: string)
    ensures Join(Split(s)) == s
  {
    if s != [] {
      var rest := Split(s[1..]);
      JoinSplit(s[1..]);
      if s[0] == '\n' {
        assert ([""] + rest)[1..] == rest;
      } else if |rest| > 1 {
        var lines := [[s[0]] + rest[0]] + rest[1..];
        assert lines[1..] == rest[1..];
        assert Join(lines) == [s[0]] + (rest[0] + "\n" + Join(rest[1..]));
      }
    }
  }

  /** Splitting a string that starts with a whole line: that line is glued to the first piece of the rest. */
  lemma {:induction false} SplitAfterLine(l: string, t: string)
    requires IsLine(l)
    ensures Split(l + t) == [l + Split(t)[0]] + Split(t)[1..]
  {
    if l == [] {
      assert l + t == t;
      assert l + Split(t)[0] == Split(t)[0];
      assert Split(t) == [Split(t)[0]] + Split(t)[1..];
    } else {
      assert (l + t)[0] == l[0];
      assert (l + t)[1..] == l[1..] + t;
      SplitAfterLine(l[1..], t);
      assert [l[0]] + (l[1..] + Split(t)[0]) == l + Split(t)[0];
    }
  }

  /** Splitting a line on its own line break. */
  lemma SplitLineBreak(l: string, t: string)
    requires IsLine(l)
    ensures Split(l + "\n" + t) == [l] + Split(t)
  {
    assert l + "\n" + t == l + ("\n" + t);
    SplitAfterLine(l, "\n" + t);
    assert ("\n" + t)[1..] == t;
    assert Split("\n" + t) == [""] + Split(t);
    assert ([""] + Split(t))[1..] == Split(t);
    assert l + "" == l;
  }

  /** A string without line breaks is a single line. */
  lemma SplitOneLine(l: string)
    requires IsLine(l)
    ensures Split(l) == [l]
  {
    SplitAfterLine(l, "");
    assert l + "" == l;
  }

  /** Splitting a join of lines gives back those lines. */
  lemma {:induction false} SplitJoin(lines: seq<string>)
    requires |lines| >= 1
    requires forall l :: l in lines ==> IsLine(l)
    ensures Split(Join(lines)) == lines
  {
    if |lines| == 1 {
      SplitOneLine(lines[0]);
    } else {
      assert lines[0] in lines;
      forall l | l in lines[1..] ensures IsLine(l) {
        assert l in lines;
      }
      SplitJoin(lines[1..]);
      SplitLineBreak(lines[0], Join(lines[1..]));
      assert [lines[0]] + lines[1..] == lines;
    }
  }

  /** Joining two non-empty runs of lines puts one line break between them. */
  lemma {:induction false} JoinConcat(xs: seq<string>, ys: seq<string>)
    requires |xs| >= 1 && |ys| >= 1
    ensures Join(xs + ys) == Join(xs) + "\n" + Join(ys)
  {
    if |xs| == 1 {
      assert (xs + ys)[1..] == ys;
    } else {
      assert (xs + ys)[1..] == xs[1..] + ys;
      JoinConcat(xs[1..], ys);
    }
  }

  /** Joining two strings with a line break joins their lines. */
  lemma SplitConcat(a: string, b: string)
    ensures Split(a + "\n" + b) == Split(a) + Split(b)
  {
    JoinSplit(a);
    JoinSplit(b);
    JoinConcat(Split(a), Split(b));
    SplitJoin(Split(a) + Split(b));
  }

  /** A terminated buffer is the join of its lines and one empty line after them. */
  lemma {:induction false} TerminatedIsJoin(lines: seq<string>)
    ensures Terminated(lines) == Join(lines + [""])
  {
    if lines != [] {
      TerminatedIsJoin(lines[1..]);
      assert (lines + [""])[1..] == lines[1..] + [""];
    }
  }

  /** Splitting a terminated buffer gives its lines and a final empty piece. */
  lemma SplitTerminated(lines: seq<string>)
    requires forall l :: l in lines ==> IsLine(l)
    ensures Split(Terminated(lines)) == lines + [""]
  {
    TerminatedIsJoin(lines);
    SplitJoin(lines + [""]);
  }

  /** Terminating two runs of lines one after the other. */
  lemma {:induction false} TerminatedConcat(xs: seq<string>, ys: seq<string>)
    ensures Terminated(xs + ys) == Terminated(xs) + Terminated(ys)
  {
    if xs == [] {
      assert xs + ys == ys;
    } else {
      assert (xs + ys)[1..] == xs[1..] + ys;
      TerminatedConcat(xs[1..], ys);
    }
  }

  /** `strings.Contains(s, sub)`: `sub` occurs somewhere in `s`; the empty string occurs everywhere. */
  predicate Contains(s: string, sub: string)
  {
    sub <= s || (s != [] && Contains(s[1..], sub))
  }

  /** `sub` stands in `s` from position `i` on. */
  predicate OccursAt(s: string, sub: string, i: nat)
  {
    i + |sub| <= |s| && s[i..i + |sub|] == sub
  }

  /** An occurrence at a position is an occurrence. */
  lemma {:induction false} OccursImpliesContains(s: string, sub: string, i: nat)
    requires OccursAt(s, sub, i)
    ensures Contains(s, sub)
  {
    if i == 0 {
      assert sub == s[..|sub|];
    } else {
      var j: nat := i - 1;
      assert s[1..][j..j + |sub|] == s[i..i + |sub|];
      assert OccursAt(s[1..], sub, j);
      OccursImpliesContains(s[1..], sub, j);
    }
  }

  /** An occurrence has a position. */
  lemma {:induction false} ContainsImpliesOccurs(s: string, sub: string)
    requires Contains(s, sub)
    ensures exists i: nat :: OccursAt(s, sub, i)
  {
    if sub <= s {
      assert OccursAt(s, sub, 0);
    } else {
      ContainsImpliesOccurs(s[1..], sub);
      var i: nat :| OccursAt(s[1..], sub, i);
      assert s[i + 1..i + 1 + |sub|] == s[1..][i..i + |sub|];
      assert OccursAt(s, sub, i + 1);
    }
  }

  /** Contains means: there is a position at which `sub` occurs. */
  lemma ContainsIffOccurs(s: string, sub: string)
    ensures Contains(s, sub) <==> exists i: nat :: OccursAt(s, sub, i)
  {
    if Contains(s, sub) {
      ContainsImpliesOccurs(s, sub);
    }
    forall i: nat | OccursAt(s, sub, i) ensures Contains(s, sub) {
      OccursImpliesContains(s, sub, i);
    }
  }

  /** The escape `%q` writes for one character (the common escapes only). */
  function EscapeChar(c: char): string
  {
    if c == '"' then "\\\""
    else if c == '\\' then "\\\\"
    else if c == '\n' then "\\n"
    else if c == '\r' then "\\r"
    else if c == '\t' then "\\t"
    else [c]
  }

  /** The character an escape code after a backslash stands for. */
  function UnescapeCode(c: char): Option<char>
  {
    if c == '"' then Some('"')
    else if c == '\\' then Some('\\')
    else if c == 'n' then Some('\n')
    else if c == 'r' then Some('\r')
    else if c == 't' then Some('\t')
    else None
  }

  /** The inside of a quoted literal: every quote, backslash, line feed, carriage return and tab escaped. */
  function Escape(s: string): (e: string)
    ensures IsLine(e)
    ensures '"' in e ==> '\\' in e
  {
    if s == [] then "" else EscapeChar(s[0]) + Escape(s[1..])
  }

  /** The rule body as `fmt.Sprintf("%q", body)` writes it. */
  function Quote(s: string): (q: string)
    ensures IsLine(q)
    ensures |q| >= 2 && q[0] == '"' && q[|q| - 1] == '"'
  {
    "\"" + Escape(s) + "\""
  }

  /** Reads the inside of a quoted literal back; None on a bare quote or line break, or a bad escape. */
  function Unescape(e: string): Option<string>
  {
    if e == [] then Some("")
    else if e[0] == '\\' then
      if |e| < 2 then None
      else match (UnescapeCode(e[1]), Unescape(e[2..]))
        case (Some(c), Some(rest)) => Some([c] + rest)
        case _ => None
    else if e[0] == '"' || e[0] == '\n' then None
    else match Unescape(e[1..])
      case Some(rest) => Some([e[0]] + rest)
      case None => None
  }

  /** Reads a quoted literal back. */
  function Unquote(q: string): Option<string>
  {
    if |q| >= 2 && q[0] == '"' && q[|q| - 1] == '"' then Unescape(q[1..|q| - 1]) else None
  }

  /** Unescaping reads one escaped character and goes on with the rest. */
  lemma UnescapeEscapeChar(c: char, rest: string)
    ensures Unescape(EscapeChar(c) + rest) ==
      match Unescape(rest)
      case Some(r) => Some([c] + r)
      case None => None
  {
    var e := EscapeChar(c);
    if |e| == 2 {
      assert (e + rest)[0] == '\\' && (e + rest)[1] == e[1];
      assert (e + rest)[2..] == rest;
      assert UnescapeCode(e[1]) == Some(c);
    } else {
      assert e == [c];
      assert (e + rest)[0] == c && (e + rest)[1..] == rest;
    }
  }

  /** Unescaping reads back what escaping wrote. */
  lemma {:induction false} UnescapeEscape(s: string)
    ensures Unescape(Escape(s)) == Some(s)
  {
    if s != [] {
      UnescapeEscape(s[1..]);
      UnescapeEscapeChar(s[0], Escape(s[1..]));
      assert [s[0]] + s[1..] == s;
    }
  }

  /** Quoting is undone by unquoting: the rule body survives the rule file intact. */
  lemma UnquoteQuote(s: string)
    ensures Unquote(Quote(s)) == Some(s)
  {
    var q := Quote(s);
    assert q[1..|q| - 1] == Escape(s);
    UnescapeEscape(s);
  }
}
