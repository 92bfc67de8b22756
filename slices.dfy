/**
 * The three slice variants a template is cut into (Text, Code, Output):
 * how each normalises its raw payload, when it is worth emitting, how it
 * renders to one fragment of the generated program, and the leading-indent
 * trim a Text slice undergoes after a Code slice.
 */
module Slices {
  import opened StcgBase


  /** `s.replace(/\r?\n/g, rep)`: every line break, with or without a
      carriage return in front of it, becomes `rep`; a lone `\r` stays. */
  function ReplaceNewlines(s: string, rep: string): string
    decreases |s|
  {
    if |s| == 0 then []
    else if |s| >= 2 && s[0] == '\r' && s[1] == '\n' then rep + ReplaceNewlines(s[2..], rep)
    else if s[0] == '\n' then rep + ReplaceNewlines(s[1..], rep)
    else [s[0]] + ReplaceNewlines(s[1..], rep)
  }

  /** With a replacement free of line feeds, no line feed survives. */
  lemma {:induction false} ReplaceRemovesNewlines(s: string, rep: string)
    requires '\n' !in rep
    ensures '\n' !in ReplaceNewlines(s, rep)
    decreases |s|
  {
    if |s| == 0 {
    } else if |s| >= 2 && s[0] == '\r' && s[1] == '\n' {
      ReplaceRemovesNewlines(s[2..], rep);
    } else {
      ReplaceRemovesNewlines(s[1..], rep);
    }
  }

  /** A payload without line feeds is left exactly as it is. */
  lemma {:induction false} ReplaceIdentity(s: string, rep: string)
    requires '\n' !in s
    ensures ReplaceNewlines(s, rep) == s
    decreases |s|
  {
    if |s| > 0 {
      assert s == [s[0]] + s[1..];
      ReplaceIdentity(s[1..], rep);
    }
  }

  /** Replacement works piecewise, unless the cut separates a `\r` from
      the `\n` that follows it. */
  lemma {:induction false} ReplaceAppend(a: string, b: string, rep: string)
    requires a == [] || b == [] || a[|a| - 1] != '\r' || b[0] != '\n'
    ensures ReplaceNewlines(a + b, rep) == ReplaceNewlines(a, rep) + ReplaceNewlines(b, rep)
    decreases |a|
  {
    if |a| == 0 {
      assert a + b == b;
    } else {
      var crlf := |a| >= 2 && a[0] == '\r' && a[1] == '\n';
      var k := if crlf then 2 else 1;
      var head := if crlf || a[0] == '\n' then rep else [a[0]];
      var ab := a + b;
      DropOfAppend(a, b, k);
      assert (|ab| >= 2 && ab[0] == '\r' && ab[1] == '\n') == crlf by {
        if |a| == 1 && |ab| >= 2 { assert ab[1] == b[0]; }
      }
      assert ReplaceNewlines(ab, rep) == head + ReplaceNewlines(ab[k..], rep);
      assert ReplaceNewlines(a, rep) == head + ReplaceNewlines(a[k..], rep);
      ReplaceAppend(a[k..], b, rep);
      AppendAssociates(head, ReplaceNewlines(a[k..], rep), ReplaceNewlines(b, rep));
    }
  }

  /** The characters JavaScript's `String.prototype.trim` removes:
      white space (including the Zs category) and line terminators. */
  predicate IsJsWhitespace(c: char) {
    || c == '\t' || c == '\n' || c == '\U{B}' || c == '\U{C}' || c == '\r' || c == ' '
    || c == '\U{A0}' || c == '\U{1680}' || ('\U{2000}' <= c <= '\U{200A}')
    || c == '\U{2028}' || c == '\U{2029}' || c == '\U{202F}' || c == '\U{205F}'
    || c == '\U{3000}' || c == '\U{FEFF}'
  }

  predicate AllWhitespace(s: string) {
    forall i :: 0 <= i < |s| ==> IsJsWhitespace(s[i])
  }

  function TrimStart(s: string): (r: string)
    ensures |r| <= |s| && r == s[|s| - |r|..]
    ensures AllWhitespace(s[..|s| - |r|])
    ensures r == [] || !IsJsWhitespace(r[0])
    decreases |s|
  {
    if s != [] && IsJsWhitespace(s[0]) then
      var r := TrimStart(s[1..]);
      DropLeadingSpace(s, s[1..], r);
      r
    else s
  }

  /** White space dropped from the front of `s[1..]` is dropped from the
      front of `s` too when `s` starts with white space. */
  lemma DropLeadingSpace(s: string, t: string, r: string)
    requires s != [] && IsJsWhitespace(s[0]) && t == s[1..]
    requires |r| <= |t| && r == t[|t| - |r|..] && AllWhitespace(t[..|t| - |r|])
    ensures |r| <= |s| && r == s[|s| - |r|..] && AllWhitespace(s[..|s| - |r|])
  {
    assert t[|t| - |r|..] == s[|s| - |r|..];
    var lead := s[..|s| - |r|];
    forall i | 0 <= i < |lead|
      ensures IsJsWhitespace(lead[i])
    {
      if i > 0 { assert lead[i] == t[..|t| - |r|][i - 1]; }
    }
  }

  function TrimEnd(s: string): (r: string)
    ensures |r| <= |s| && r == s[..|r|]
    ensures AllWhitespace(s[|r|..])
    ensures r == [] || !IsJsWhitespace(r[|r| - 1])
    decreases |s|
  {
    if s != [] && IsJsWhitespace(s[|s| - 1]) then
      var t := s[..|s| - 1];
      var r := TrimEnd(t);
      assert r == s[..|r|] by { assert t[..|r|] == s[..|r|]; }
      assert AllWhitespace(s[|r|..]) by {
        forall i | 0 <= i < |s| - |r|
          ensures IsJsWhitespace(s[|r|..][i])
        {
          if i < |t| - |r| { assert s[|r|..][i] == t[|r|..][i]; }
        }
      }
      r
    else s
  }

  /** `r` sits at `i` in `s` with only white space on either side of it. */
  predicate Window(s: string, r: string, i: int) {
    0 <= i <= |s| - |r| && r == s[i..i + |r|] && AllWhitespace(s[..i]) && AllWhitespace(s[i + |r|..])
  }

  /** `s.trim()`: the longest stretch of `s` that neither starts nor ends
      with white space, with only white space around it. */
  function Trim(s: string): (r: string)
    ensures exists i :: Window(s, r, i)
    ensures r == [] || (!IsJsWhitespace(r[0]) && !IsJsWhitespace(r[|r| - 1]))
  {
    var t := TrimStart(s);
    var r := TrimEnd(t);
    TrimWindow(s, t, r);
    r
  }

  lemma TrimWindow(s: string, t: string, r: string)
    requires |t| <= |s| && t == s[|s| - |t|..] && AllWhitespace(s[..|s| - |t|])
    requires t == [] || !IsJsWhitespace(t[0])
    requires |r| <= |t| && r == t[..|r|] && AllWhitespace(t[|r|..])
    requires r == [] || !IsJsWhitespace(r[|r| - 1])
    ensures Window(s, r, |s| - |t|)
    ensures r == [] || (!IsJsWhitespace(r[0]) && !IsJsWhitespace(r[|r| - 1]))
  {
    var i := |s| - |t|;
    assert s[i + |r|..] == t[|r|..];
    assert r == [] || r[0] == t[0];
  }

  /** The raw payload of a slice becomes its program text in one of three ways. */
  datatype Kind = TextKind | CodeKind | OutputKind

  /** A slice holds its payload after its constructor's normalisation. */
  datatype Slice = Text(body: string) | Code(body: string) | Output(body: string)

  /** A Text or Code slice is flattened when its payload holds no line
      feed; an Output slice counts as flattened whatever its payload,
      since its expression is emitted as given. */
  predicate Flattened(s: Slice) {
    s.Output? || '\n' !in s.body
  }

  /** Text replaces each line break by the two characters `\` and `n`. */
  function MakeText(raw: string): (s: Slice)
    ensures s.Text? && Flattened(s)
    ensures '\n' !in raw ==> s.body == raw
  {
    ReplaceRemovesNewlines(raw, "\\n");
    assert '\n' !in raw ==> ReplaceNewlines(raw, "\\n") == raw by {
      if '\n' !in raw { ReplaceIdentity(raw, "\\n"); }
    }
    Text(ReplaceNewlines(raw, "\\n"))
  }

  /** Code turns a multi-line statement into a single line, one space per break. */
  function MakeCode(raw: string): (s: Slice)
    ensures s.Code? && Flattened(s)
    ensures '\n' !in raw ==> s.body == raw
  {
    ReplaceRemovesNewlines(raw, " ");
    assert '\n' !in raw ==> ReplaceNewlines(raw, " ") == raw by {
      if '\n' !in raw { ReplaceIdentity(raw, " "); }
    }
    Code(ReplaceNewlines(raw, " "))
  }

  /** The factory a transition of the mode machine names. */
  function MakeSlice(k: Kind, raw: string): (s: Slice)
    ensures Flattened(s)
    ensures s.Text? <==> k == TextKind
    ensures s.Code? <==> k == CodeKind
    ensures s.Output? ==> s.body == raw
  {
    match k
    case TextKind => MakeText(raw)
    case CodeKind => MakeCode(raw)
    case OutputKind => Output(raw)
  }

  /** `isValid()`: a Code slice is kept when its trimmed body is not
      empty; Text and Output when their body is not empty. */
  predicate IsValid(s: Slice) {
    if s.Code? then |Trim(s.body)| != 0 else |s.body| != 0
  }

  /** Code needs something besides white space; Text and Output need to
      be non-empty. */
  lemma IsValidMeans(s: Slice)
    ensures IsValid(s) <==> if s.Code? then exists i :: 0 <= i < |s.body| && !IsJsWhitespace(s.body[i])
                            else |s.body| != 0
  {
    if s.Code? {
      var t := Trim(s.body);
      if t == [] {
        var i :| Window(s.body, t, i);
        assert s.body == s.body[..i] + s.body[i..];
      }
    }
  }

  /** The first `k` characters of `s` are spaces. */
  predicate SpacesBefore(s: string, k: int) {
    forall i :: 0 <= i < k && i < |s| ==> s[i] == ' '
  }

  function LeadingSpaces(s: string): (n: nat)
    ensures n <= |s| && SpacesBefore(s, n)
    ensures n == |s| || s[n] != ' '
    decreases |s|
  {
    if s != [] && s[0] == ' ' then 1 + LeadingSpaces(s[1..]) else 0
  }

  /** `replace(/^ *\\n/, '')`: a run of spaces at the very start followed
      by the escaped line break is removed; anything else stays. */
  function TrimLeading(body: string): string
  {
    var n := LeadingSpaces(body);
    if n + 2 <= |body| && body[n] == '\\' && body[n + 1] == 'n' then body[n + 2..] else body
  }

  /** The run of spaces, when an escaped line break follows it, goes
      with that line break; otherwise the body stays as it is. */
  lemma TrimLeadingMeans(body: string)
    ensures forall k :: 0 <= k <= |body| - 2 && SpacesBefore(body, k) && body[k] == '\\' && body[k + 1] == 'n'
                        ==> TrimLeading(body) == body[k + 2..]
    ensures (forall k :: 0 <= k <= |body| - 2 && SpacesBefore(body, k) ==> body[k] != '\\' || body[k + 1] != 'n')
            ==> TrimLeading(body) == body
  {
    var n := LeadingSpaces(body);
    assert forall k :: 0 <= k < |body| && SpacesBefore(body, k) && body[k] == '\\' ==> k == n;
  }

  /** `toCode()`: the fragment of the generated program a slice becomes;
      always one line feed at its end, and none before it for Text and Code. */
  function Render(s: Slice): (code: string)
    ensures |code| > 0 && code[|code| - 1] == '\n'
    ensures Flattened(s) && !s.Output? ==> '\n' !in code[..|code| - 1]
  {
    match s
    case Text(b) => "__out__('" + b + "')\n"
    case Code(b) => b + "\n"
    case Output(b) => "__out__(" + b + ")\n"
  }
}
