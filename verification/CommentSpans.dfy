/**
 The comment scanner of the prose checker (cli/prose.py:132-182) and the character-by-
 character lexer it agrees with.
*/
module CommentSpans {
  import opened Basics

  /** text[begin..end], a comment, with its line. */
  datatype Span = Span(line: nat, begin: nat, end: nat)

  /** Where the lexer stands, in a comment or at a slash with where it began. */
  datatype Mode =
    | Code
    | Slash(at: nat)
    | Line(at: nat)
    | Block(at: nat, star: bool)    // `star`: the last character could close it
    | Quote(q: char)
    | Escape(q: char)

  function Newlines(text: string, n: nat): nat
    requires n <= |text|
  {
    if n == 0 then 0 else Newlines(text, n - 1) + if text[n - 1] == '\n' then 1 else 0
  }

  /** The newlines among the first `n` characters, counted. */
  lemma {:induction false} NewlinesAre(text: string, n: nat)
    requires n <= |text|
    ensures Newlines(text, n) == |set k | 0 <= k < n && text[k] == '\n'|
    decreases n
  {
    if n > 0 {
      NewlinesAre(text, n - 1);
      var before, now := set k | 0 <= k < n - 1 && text[k] == '\n', set k | 0 <= k < n && text[k] == '\n';
      assert now == if text[n - 1] == '\n' then before + {n - 1} else before;
    }
  }

  function SpanOf(text: string, begin: nat, end: nat): Span
    requires begin <= end <= |text|
  {
    Span(1 + Newlines(text, begin), begin, end)
  }

  /** One character met in code. */
  function FromCode(c: char, i: nat): Mode {
    if c == '/' then Slash(i) else if c == '"' || c == '\'' then Quote(c) else Code
  }

  /** One character. */
  function Next(m: Mode, c: char, i: nat): Mode {
    match m
    case Code => FromCode(c, i)
    case Slash(at) => if c == '/' then Line(at) else if c == '*' then Block(at, false) else FromCode(c, i)
    case Line(at) => if c == '\n' then Code else m
    case Block(at, star) => if star && c == '/' then Code else Block(at, c == '*')
    case Quote(q) => if c == q then Code else if c == '\\' then Escape(q) else m
    case Escape(q) => Quote(q)
  }

  /** The comment a character ends, if it does. */
  function Ends(m: Mode, c: char, i: nat): Option<(nat, nat)> {
    match m
    case Line(at) => if c == '\n' then Some((at, i)) else None
    case Block(at, star) => if star && c == '/' then Some((at, i + 1)) else None
    case _ => None
  }

  function ModeAt(text: string, n: nat): (m: Mode)
    requires n <= |text|
    ensures m.Slash? || m.Line? || m.Block? ==> m.at < n
  {
    if n == 0 then Code else Next(ModeAt(text, n - 1), text[n - 1], n - 1)
  }

  function SpansAt(text: string, n: nat): seq<Span>
    requires n <= |text|
  {
    if n == 0 then []
    else
      var e := Ends(ModeAt(text, n - 1), text[n - 1], n - 1);
      SpansAt(text, n - 1) + if e.Some? then [SpanOf(text, e.value.0, e.value.1)] else []
  }

  /** A comment the text ends in. */
  function Spans(text: string): seq<Span> {
    var m := ModeAt(text, |text|);
    SpansAt(text, |text|) + if m.Line? || m.Block? then [SpanOf(text, m.at, |text|)] else []
  }

  // ---- what the reference says ------------------------------------------------------------

  /** Spans in order, apart, each a comment with its line. */
  ghost predicate Proper(text: string, spans: seq<Span>, upTo: nat)
    requires upTo <= |text|
  {
    && (forall i :: 0 <= i < |spans| ==> IsComment(text, spans[i]) && spans[i].end <= upTo)
    && forall i, j :: 0 <= i < j < |spans| ==> spans[i].end <= spans[j].begin
  }

  ghost predicate IsComment(text: string, s: Span) {
    && s.begin + 2 <= s.end <= |text| && s.line == 1 + Newlines(text, s.begin)
    && text[s.begin] == '/' && (text[s.begin + 1] == '/' || text[s.begin + 1] == '*')
    && (text[s.begin + 1] == '/' ==>
          && (forall k :: s.begin <= k < s.end ==> text[k] != '\n')
          && (s.end == |text| || text[s.end] == '\n'))
    && (text[s.begin + 1] == '*' ==>
          && (forall k :: s.begin + 2 <= k < s.end - 2 ==> !Closes(text, k))
          && (s.end == |text| || (s.end >= s.begin + 4 && Closes(text, s.end - 2))))
  }

  /** A comment opens here: in code, and not in a literal or in another comment. */
  ghost predicate OpensAt(text: string, i: nat) {
    i + 1 < |text| && ModeAt(text, i) == Code && text[i] == '/' && (text[i + 1] == '/' || text[i + 1] == '*')
  }

  ghost predicate BeginsIn(spans: seq<Span>, i: nat) {
    exists k :: 0 <= k < |spans| && spans[k].begin == i
  }

  predicate Closes(text: string, k: nat) {
    k + 1 < |text| && text[k] == '*' && text[k + 1] == '/'
  }

  /** What the mode says of the text behind it. */
  ghost predicate Behind(text: string, n: nat)
    requires n <= |text|
  {
    match ModeAt(text, n)
    case Slash(at) => at + 1 == n && text[at] == '/' && ModeAt(text, at) == Code
    case Line(at) => at + 2 <= n && text[at] == '/' && text[at + 1] == '/' && forall k :: at <= k < n ==> text[k] != '\n'
    case Block(at, star) =>
      && at + 2 <= n && text[at] == '/' && text[at + 1] == '*' && (star ==> at + 3 <= n)
      && (star <==> at + 3 <= n && text[n - 1] == '*') && forall k :: at + 2 <= k < n - 1 ==> !Closes(text, k)
    case _ => true
  }

  lemma {:induction false} BehindHolds(text: string, n: nat)
    requires n <= |text|
    ensures Behind(text, n)
    decreases n
  {
    if n > 0 {
      BehindHolds(text, n - 1);
    }
  }

  /** The spans ended before an open comment end before it opens. */
  lemma {:induction false} SpansProper(text: string, n: nat)
    requires n <= |text|
    ensures var m := ModeAt(text, n);
      Proper(text, SpansAt(text, n), if m.Slash? || m.Line? || m.Block? then m.at else n)
    decreases n
  {
    if n > 0 {
      SpansProper(text, n - 1);
      BehindHolds(text, n - 1);
      hide Newlines, Closes;
    }
  }

  /** The comments begun so far, ended or not, are those that opened. */
  lemma {:induction false} BegunIff(text: string, n: nat, i: nat)
    requires n <= |text|
    ensures var m := ModeAt(text, n);
      BeginsIn(SpansAt(text, n), i) || ((m.Line? || m.Block?) && m.at == i) <==> i + 2 <= n && OpensAt(text, i)
    decreases n
  {
    if n > 0 {
      BegunIff(text, n - 1, i);
      BehindHolds(text, n - 1);
      var e := Ends(ModeAt(text, n - 1), text[n - 1], n - 1);
      Appends(SpansAt(text, n - 1), text, e, i);
      hide Newlines, Closes, BeginsIn;
    }
  }

  lemma Appends(spans: seq<Span>, text: string, e: Option<(nat, nat)>, i: nat)
    requires e.Some? ==> e.value.0 <= e.value.1 <= |text|
    ensures BeginsIn(spans + if e.Some? then [SpanOf(text, e.value.0, e.value.1)] else [], i)
            <==> BeginsIn(spans, i) || (e.Some? && e.value.0 == i)
  {
    if e.Some? {
      var more := spans + [SpanOf(text, e.value.0, e.value.1)];
      assert more[|spans|].begin == e.value.0;
      if BeginsIn(spans, i) {
        var k :| 0 <= k < |spans| && spans[k].begin == i;
        assert more[k].begin == i;
      }
    } else {
      assert spans + [] == spans;
    }
  }

  /** Every span is one comment, whole, at its line, and apart from every other; and one
      begins exactly where a comment opens - in no string and no character literal. */
  lemma AllProper(text: string)
    ensures Proper(text, Spans(text), |text|)
    ensures forall i: nat :: BeginsIn(Spans(text), i) <==> OpensAt(text, i)
  {
    SpansProper(text, |text|);
    BehindHolds(text, |text|);
    var m := ModeAt(text, |text|);
    forall i: nat ensures BeginsIn(Spans(text), i) <==> OpensAt(text, i) {
      BegunIff(text, |text|, i);
      Appends(SpansAt(text, |text|), text, if m.Line? || m.Block? then Some((m.at, |text|)) else None, i);
      hide Newlines, BeginsIn;
    }
    hide ModeAt, SpansAt, Newlines;
  }

  /** A match at an offset in a chunk is on the chunk's line plus the newlines before it
      there: the line it has in the text (check_text). */
  lemma {:induction false} LineOfMatch(text: string, s: Span, off: nat)
    requires IsComment(text, s) && off <= s.end - s.begin
    ensures s.line + Newlines(text[s.begin..s.end], off) == 1 + Newlines(text, s.begin + off)
    decreases off
  {
    if off > 0 {
      LineOfMatch(text, s, off - 1);
    }
  }

  // ---- the scanner ---------------------------------------------------------------------------

  /** str.find of a newline, from `from` on; the text's length when there is none. */
  method FindNewline(text: string, from: nat) returns (j: nat)
    requires from <= |text|
    ensures from <= j <= |text| && (j < |text| ==> text[j] == '\n')
    ensures forall k :: from <= k < j ==> text[k] != '\n'
  {
    j := from;
    while j < |text| && text[j] != '\n'
      invariant from <= j <= |text| && forall k :: from <= k < j ==> text[k] != '\n'
    {
      j := j + 1;
    }
  }

  /** str.find of a block comment's close; the text's length when there is none. */
  method FindClose(text: string, from: nat) returns (j: nat)
    requires from <= |text|
    ensures from <= j <= |text| && (j < |text| ==> Closes(text, j))
    ensures forall k :: from <= k < j ==> !Closes(text, k)
  {
    j := from;
    while j < |text| && !Closes(text, j)
      invariant from <= j <= |text| && forall k :: from <= k < j ==> !Closes(text, k)
    {
      j := j + 1;
    }
  }

  /** The lexer walks a line comment to its newline. */
  lemma {:induction false} WalksLine(text: string, i: nat, j: nat)
    requires i + 2 <= j <= |text| && ModeAt(text, i) == Code && text[i] == '/' && text[i + 1] == '/'
    requires forall k :: i <= k < j ==> text[k] != '\n'
    ensures ModeAt(text, j) == Line(i) && SpansAt(text, j) == SpansAt(text, i)
    decreases j
  {
    if j > i + 2 {
      WalksLine(text, i, j - 1);
    } else {
      assert ModeAt(text, i + 1) == Slash(i) && SpansAt(text, i + 1) == SpansAt(text, i);
    }
  }

  /** And a block comment to its close. */
  lemma {:induction false} WalksBlock(text: string, i: nat, j: nat)
    requires i + 2 <= j <= |text| && ModeAt(text, i) == Code && text[i] == '/' && text[i + 1] == '*'
    requires forall k :: i + 2 <= k < j - 1 ==> !Closes(text, k)
    ensures ModeAt(text, j) == Block(i, j > i + 2 && text[j - 1] == '*') && SpansAt(text, j) == SpansAt(text, i)
    decreases j
  {
    if j > i + 2 {
      WalksBlock(text, i, j - 1);
      if j > i + 3 {
        assert !Closes(text, j - 2);
      }
    } else {
      assert ModeAt(text, i + 1) == Slash(i) && SpansAt(text, i + 1) == SpansAt(text, i);
    }
  }

  lemma {:induction false} NewlinesBetween(text: string, i: nat, j: nat)
    requires i <= j <= |text|
    ensures Newlines(text, j) == Newlines(text, i) + Newlines(text[i..j], j - i)
    decreases j
  {
    if i < j {
      NewlinesBetween(text, i, j - 1);
      NewlinesPrefix(text[i..j], text[i..j - 1], j - 1 - i);
    }
  }

  lemma {:induction false} NewlinesPrefix(a: string, b: string, n: nat)
    requires n <= |a| && n <= |b| && a[..n] == b[..n]
    ensures Newlines(a, n) == Newlines(b, n)
    decreases n
  {
    if n > 0 {
      assert a[..n][n - 1] == b[..n][n - 1];
      assert a[..n - 1] == a[..n][..n - 1] && b[..n - 1] == b[..n][..n - 1];
      NewlinesPrefix(a, b, n - 1);
    }
  }

  /** A literal, from behind its opening quote to behind its closing one, or past the end. */
  method SkipLiteral(text: string, i0: nat, line0: nat, q: char) returns (i: nat, line: nat)
    requires i0 <= |text| && ModeAt(text, i0) == Quote(q) && (q == '"' || q == '\'')
    requires line0 == 1 + Newlines(text, i0)
    ensures i > i0
    ensures i <= |text| ==> ModeAt(text, i) == Code && SpansAt(text, i) == SpansAt(text, i0) && line == 1 + Newlines(text, i)
    ensures i > |text| ==> Spans(text) == SpansAt(text, i0)
  {
    i, line := i0, line0;
    while i < |text| && text[i] != q
      invariant i0 <= i
      invariant i <= |text| ==> ModeAt(text, i) == Quote(q) && SpansAt(text, i) == SpansAt(text, i0)
                                && line == 1 + Newlines(text, i)
      invariant i > |text| ==> Spans(text) == SpansAt(text, i0)
    {
      if text[i] == '\\' {
        i := i + 1;
      }
      if i < |text| && text[i] == '\n' {
        line := line + 1;
      }
      i := i + 1;
    }
    i := i + 1;
  }

  /** Where the scanner stands against the lexer: in code, behind a slash that opens
      nothing, or at the newline a comment already told of ends at. */
  ghost predicate Stands(text: string, i: nat, line: nat, spans: seq<Span>) {
    if i > |text| then spans == Spans(text)
    else
      && line == 1 + Newlines(text, i)
      && match ModeAt(text, i)
         case Code => spans == SpansAt(text, i)
         case Slash(_) => spans == SpansAt(text, i) && (i < |text| ==> text[i] != '/' && text[i] != '*')
         case Line(at) => spans == SpansAt(text, i) + [SpanOf(text, at, i)] && (i < |text| ==> text[i] == '\n')
         case Block(at, _) => spans == SpansAt(text, i) + [SpanOf(text, at, i)] && i == |text|
         case _ => false
  }

  lemma StandsAtEnd(text: string, i: nat, line: nat, spans: seq<Span>)
    requires Stands(text, i, line, spans) && i >= |text|
    ensures spans == Spans(text)
  {
    hide Newlines, SpansAt, ModeAt;
  }

  /** A character that opens neither a comment nor a literal. */
  lemma Passes(text: string, i: nat, line: nat, spans: seq<Span>)
    requires i < |text| && Stands(text, i, line, spans) && text[i] != '"' && text[i] != '\''
    requires text[i] == '/' && i + 1 < |text| ==> text[i + 1] != '/' && text[i + 1] != '*'
    ensures Stands(text, i + 1, line + if text[i] == '\n' then 1 else 0, spans)
  {
  }

  lemma Opens(text: string, i: nat, line: nat, spans: seq<Span>)
    requires i < |text| && Stands(text, i, line, spans) && (text[i] == '"' || text[i] == '\'')
    ensures ModeAt(text, i + 1) == Quote(text[i]) && SpansAt(text, i + 1) == spans && line == 1 + Newlines(text, i + 1)
  {
  }

  lemma LineComment(text: string, i: nat, j: nat, line: nat, spans: seq<Span>)
    requires i + 2 <= j <= |text| && Stands(text, i, line, spans) && text[i] == '/' && text[i + 1] == '/'
    requires (j < |text| ==> text[j] == '\n') && forall k :: i <= k < j ==> text[k] != '\n'
    ensures Stands(text, j, line, spans + [Span(line, i, j)])
  {
    WalksLine(text, i, j);
    NewlinesNone(text, i, j);
    hide Newlines, ModeAt, SpansAt;
  }

  lemma BlockComment(text: string, i: nat, j: nat, line: nat, spans: seq<Span>)
    requires i + 2 <= j <= |text| && Stands(text, i, line, spans) && text[i] == '/' && text[i + 1] == '*'
    requires (j < |text| ==> Closes(text, j)) && forall k :: i + 2 <= k < j ==> !Closes(text, k)
    ensures var e := if j < |text| then j + 2 else j;
      Stands(text, e, line + Newlines(text[i..e], e - i), spans + [Span(line, i, e)])
  {
    var e := if j < |text| then j + 2 else j;
    WalksBlock(text, i, if j < |text| then j + 1 else j);
    NewlinesBetween(text, i, e);
    if j < |text| {
      assert Next(ModeAt(text, j + 1), text[j + 1], j + 1) == ModeAt(text, j + 2) == Code;
      assert SpansAt(text, j + 2) == spans + [SpanOf(text, i, e)];
    }
    hide Newlines, ModeAt, SpansAt;
  }

  lemma Skipped(text: string, i: nat, line: nat, spans: seq<Span>)
    requires i <= |text| ==> ModeAt(text, i) == Code && SpansAt(text, i) == spans && line == 1 + Newlines(text, i)
    requires i > |text| ==> Spans(text) == spans
    ensures Stands(text, i, line, spans)
  {
  }

  lemma Begins(text: string)
    ensures Stands(text, 0, 1, [])
  {
  }

  /** comment_spans. */
  method Scan(text: string) returns (spans: seq<Span>)
    ensures spans == Spans(text)
  {
    hide Stands, ModeAt, SpansAt, Spans, Closes;
    var i: nat, line: nat := 0, 1;
    spans := [];
    Begins(text);
    while i < |text|
      invariant Stands(text, i, line, spans)
      decreases |text| - i
    {
      var c := text[i];
      if c == '\n' {
        Passes(text, i, line, spans);
        line := line + 1;
        i := i + 1;
      } else if c == '"' || c == '\'' {
        Opens(text, i, line, spans);
        i, line := SkipLiteral(text, i + 1, line, c);
        Skipped(text, i, line, spans);
      } else if c == '/' && i + 1 < |text| && text[i + 1] == '/' {
        var j := FindNewline(text, i);
        LineComment(text, i, j, line, spans);
        spans := spans + [Span(line, i, j)];
        i := j;
      } else if c == '/' && i + 1 < |text| && text[i + 1] == '*' {
        var j := FindClose(text, i + 2);
        BlockComment(text, i, j, line, spans);
        j := if j < |text| then j + 2 else j;
        spans := spans + [Span(line, i, j)];
        line := line + Newlines(text[i..j], j - i);
        i := j;
      } else {
        Passes(text, i, line, spans);
        i := i + 1;
      }
    }
    StandsAtEnd(text, i, line, spans);
  }

  lemma {:induction false} NewlinesNone(text: string, i: nat, j: nat)
    requires i <= j <= |text| && forall k :: i <= k < j ==> text[k] != '\n'
    ensures Newlines(text, j) == Newlines(text, i)
    decreases j
  {
    if i < j {
      NewlinesNone(text, i, j - 1);
    }
  }
}
