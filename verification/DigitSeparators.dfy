/**
 The scanner and digit separators (cli/prose.py:132-165): an apostrophe inside a number
 opens a literal in the scanner, and in C++14 none. What is compared is the scanner's
 own lexer with that one thing taught to it - the lexer of CommentSpans over the text
 with its separators taken for digits. The rest of what C++ has and the scanner has
 not - raw strings, lines spliced by a backslash, header names - neither of the two
 knows.
*/
module DigitSeparators {
  import opened Basics
  import opened CommentSpans

  /** What the taught lexer is in the middle of, in code. */
  datatype Word = NoWord | Name | Number

  predicate Digit(c: char) { '0' <= c <= '9' }

  predicate WordChar(c: char) { Digit(c) || 'a' <= c <= 'z' || 'A' <= c <= 'Z' || c == '_' }

  /** A number runs through letters, digits and dots. */
  function NextWord(w: Word, c: char): Word {
    if WordChar(c) then (if w != NoWord then w else if Digit(c) then Number else Name)
    else if c == '.' && w == Number then Number
    else NoWord
  }

  datatype State = State(mode: Mode, word: Word)

  /** An apostrophe in a number, with more of the number behind it. */
  predicate Separates(text: string, i: nat, s: State) {
    i + 1 < |text| && s == State(Code, Number) && text[i] == '\'' && WordChar(text[i + 1])
  }

  function StateAt(text: string, n: nat): State
    requires n <= |text|
  {
    if n == 0 then State(Code, NoWord)
    else
      var s, c := StateAt(text, n - 1), text[n - 1];
      if Separates(text, n - 1, s) then s
      else
        var m := Next(s.mode, c, n - 1);
        State(m, if m.Code? && (s.mode.Code? || s.mode.Slash?) then NextWord(if s.mode.Code? then s.word else NoWord, c)
                 else NoWord)
  }

  /** The i-th character is a digit separator. */
  predicate Separator(text: string, i: nat) {
    i < |text| && Separates(text, i, StateAt(text, i))
  }

  ghost predicate NoSeparator(text: string) {
    forall i: nat :: !Separator(text, i)
  }

  /** The text with its separators taken for digits. */
  function Taken(text: string): (t: string)
    ensures |t| == |text|
  {
    seq(|text|, i requires 0 <= i < |text| => if Separator(text, i) then '0' else text[i])
  }

  /** The comments the taught lexer tells of. */
  function TaughtSpans(text: string): seq<Span> { Spans(Taken(text)) }

  /** Only apostrophes are taken for anything else. */
  lemma SameElse(text: string, i: nat)
    requires i < |text|
    ensures Taken(text)[i] == if Separator(text, i) then '0' else text[i]
    ensures Separator(text, i) ==> text[i] == '\''
  {
    hide StateAt;
  }

  /** It is the scanner's lexer on that text. */
  lemma {:induction false} TaughtIs(text: string, n: nat)
    requires n <= |text|
    ensures StateAt(text, n).mode == ModeAt(Taken(text), n)
    decreases n
  {
    hide *;
    if n == 0 {
      AtStart(text, Taken(text));
    } else {
      TaughtIs(text, n - 1);
      SameElse(text, n - 1);
      TaughtStep(text, Taken(text), n);
    }
  }

  lemma AtStart(text: string, t: string)
    ensures StateAt(text, 0).mode == ModeAt(t, 0) == Code
  {
  }

  lemma TaughtStep(text: string, t: string, n: nat)
    requires 0 < n <= |text| == |t| && t[n - 1] == if Separator(text, n - 1) then '0' else text[n - 1]
    requires StateAt(text, n - 1).mode == ModeAt(t, n - 1)
    ensures StateAt(text, n).mode == ModeAt(t, n)
    ensures Separator(text, n - 1) ==> StateAt(text, n).mode == Code
  {
  }

  // ---- standing together --------------------------------------------------------------------

  /** The scanner stands where the taught lexer does, at every character. */
  ghost predicate Agrees(text: string) {
    forall n: nat :: n <= |text| ==> ModeAt(text, n) == ModeAt(Taken(text), n)
  }

  /** It does exactly when the text holds no separator. */
  lemma AgreesIff(text: string)
    ensures Agrees(text) <==> NoSeparator(text)
    ensures NoSeparator(text) ==> Spans(text) == TaughtSpans(text)
  {
    hide StateAt, ModeAt, Separator;
    if NoSeparator(text) {
      assert Taken(text) == text;
    } else {
      var i: nat :| Separator(text, i);
      Apart(text, i);
    }
  }

  lemma Apart(text: string, i: nat)
    requires Separator(text, i)
    ensures i < |text| && (ModeAt(text, i) == ModeAt(Taken(text), i) ==> ModeAt(text, i + 1) != ModeAt(Taken(text), i + 1))
  {
    TaughtIs(text, i);
    SameElse(text, i);
    TaughtIs(text, i + 1);
    SeparatorInside(text, i);
    TaughtStep(text, Taken(text), i + 1);
    hide Taken, Spans, StateAt;
  }

  lemma SeparatorInside(text: string, i: nat)
    requires Separator(text, i)
    ensures i + 1 < |text| && text[i] == '\'' && StateAt(text, i).mode == Code
  {
    hide StateAt;
  }

  // ---- answering together -------------------------------------------------------------------

  /** Comments are comments in both texts: a separator is no part of what makes one. */
  lemma SameComments(text: string, s: Span)
    ensures IsComment(Taken(text), s) <==> IsComment(text, s)
  {
    var t := Taken(text);
    forall i: nat | i < |text| ensures (t[i] == '/' <==> text[i] == '/') && (t[i] == '*' <==> text[i] == '*')
                                       && (t[i] == '\n' <==> text[i] == '\n') {
      SameElse(text, i);
    }
    if s.begin <= |text| {
      SameLines(text, s.begin);
    }
    hide Taken, Separator, Newlines;
    assert forall k: nat :: Closes(t, k) <==> Closes(text, k);
  }

  lemma {:induction false} SameLines(text: string, n: nat)
    requires n <= |text|
    ensures Newlines(Taken(text), n) == Newlines(text, n)
    decreases n
  {
    hide Taken, Separator;
    if n > 0 {
      SameLines(text, n - 1);
      SameElse(text, n - 1);
    }
  }

  /** A comment is told by where it begins. */
  lemma OneEnd(text: string, a: Span, b: Span)
    requires IsComment(text, a) && IsComment(text, b) && a.begin == b.begin
    ensures a == b
  {
    if a.end < b.end {
      NotBefore(text, a, b);
    } else if b.end < a.end {
      NotBefore(text, b, a);
    }
  }

  lemma NotBefore(text: string, a: Span, b: Span)
    requires IsComment(text, a) && IsComment(text, b) && a.begin == b.begin
    ensures a.end >= b.end
  {
    hide Newlines;
    if text[a.begin + 1] == '/' {
      assert a.end < |text| ==> text[a.end] == '\n';
    } else {
      assert a.end < |text| ==> Closes(text, a.end - 2);
    }
  }

  /** And a list of them, in order and apart, by where they begin. */
  lemma {:induction false} SameBegins(text: string, a: seq<Span>, b: seq<Span>)
    requires Proper(text, a, |text|) && Proper(text, b, |text|)
    requires forall i: nat :: BeginsIn(a, i) <==> BeginsIn(b, i)
    ensures a == b
    decreases |a|
  {
    hide IsComment;
    if a == [] {
      assert b == [] by {
        NoneBegins(a, b);
      }
    } else {
      assert BeginsIn(a, a[0].begin);
      assert b != [] && BeginsIn(b, b[0].begin);
      FirstLeast(text, a, b[0].begin);
      FirstLeast(text, b, a[0].begin);
      OneEnd(text, a[0], b[0]);
      forall i: nat ensures BeginsIn(a[1..], i) <==> BeginsIn(b[1..], i) {
        Tail(text, a, i);
        Tail(text, b, i);
        hide BeginsIn;
      }
      SameBegins(text, a[1..], b[1..]);
      assert a == [a[0]] + a[1..] && b == [b[0]] + b[1..];
    }
  }

  lemma NoneBegins(a: seq<Span>, b: seq<Span>)
    requires a == [] && forall i: nat :: BeginsIn(a, i) <==> BeginsIn(b, i)
    ensures b == []
  {
    if b != [] {
      HasFirst(b);
    }
  }

  lemma HasFirst(b: seq<Span>)
    requires b != []
    ensures BeginsIn(b, b[0].begin)
  {
  }

  lemma FirstLeast(text: string, a: seq<Span>, i: nat)
    requires Proper(text, a, |text|) && BeginsIn(a, i)
    ensures a != [] && a[0].begin <= i
  {
    var k :| 0 <= k < |a| && a[k].begin == i;
    assert IsComment(text, a[0]);
    hide Newlines, Closes;
  }

  lemma Tail(text: string, a: seq<Span>, i: nat)
    requires Proper(text, a, |text|) && a != []
    ensures BeginsIn(a[1..], i) <==> BeginsIn(a, i) && i != a[0].begin
    ensures Proper(text, a[1..], |text|)
  {
    assert IsComment(text, a[0]);
    hide Newlines, Closes;
    if BeginsIn(a, i) && i != a[0].begin {
      var k :| 0 <= k < |a| && a[k].begin == i;
      assert a[1..][k - 1].begin == i;
    }
    if BeginsIn(a[1..], i) {
      var k :| 0 <= k < |a[1..]| && a[1..][k].begin == i;
      assert a[k + 1].begin == i && a[0].end <= a[k + 1].begin;
    }
  }

  /** On every text: the scanner answers what the taught lexer does exactly when, wherever
      a comment could open, the two agree whether it does. */
  lemma AnswersIff(text: string)
    ensures Spans(text) == TaughtSpans(text) <==> forall i: nat :: OpensAt(text, i) <==> OpensAt(Taken(text), i)
  {
    AllProper(text);
    AllProper(Taken(text));
    var a, b := Spans(text), TaughtSpans(text);
    assert Proper(text, b, |text|) by {
      forall k | 0 <= k < |b| ensures IsComment(text, b[k]) {
        SameComments(text, b[k]);
      }
    }
    hide OpensAt, Spans, Taken, IsComment;
    if forall i: nat :: OpensAt(text, i) <==> OpensAt(Taken(text), i) {
      SameBegins(text, a, b);
    } else {
      var i: nat :| !(OpensAt(text, i) <==> OpensAt(Taken(text), i));
      assert BeginsIn(a, i) <==> OpensAt(text, i);
      assert BeginsIn(b, i) <==> OpensAt(Taken(text), i);
    }
  }

  /** With no apostrophe behind it the literal a separator opens never closes. */
  lemma {:induction false} NeverCloses(text: string, n: nat, k: nat)
    requires n < k <= |text| && ModeAt(text, n) == Code && text[n] == '\''
    requires forall i :: n < i < |text| ==> text[i] != '\''
    ensures ModeAt(text, k) == Quote('\'') || ModeAt(text, k) == Escape('\'')
    ensures SpansAt(text, k) == SpansAt(text, n)
    decreases k
  {
    if k > n + 1 {
      NeverCloses(text, n, k - 1);
    } else {
      assert ModeAt(text, n + 1) == Quote('\'');
    }
  }

  /** Up to the first separator the two stand together. */
  lemma {:induction false} Together(text: string, n: nat)
    requires n <= |text| && forall i :: 0 <= i < n ==> !Separator(text, i)
    ensures ModeAt(text, n) == ModeAt(Taken(text), n)
    decreases n
  {
    hide Taken, Separator;
    if n > 0 {
      Together(text, n - 1);
      SameElse(text, n - 1);
    }
  }

  /** The text's first separator, when no apostrophe follows it, hides every comment
      behind it: the scanner is right exactly when none opens there. */
  lemma HidesIff(text: string, n: nat)
    requires Separator(text, n) && forall i :: 0 <= i < n ==> !Separator(text, i)
    requires forall i :: n < i < |text| ==> text[i] != '\''
    ensures Spans(text) == SpansAt(text, n)
    ensures Spans(text) == TaughtSpans(text) <==> forall i: nat :: n < i ==> !OpensAt(Taken(text), i)
  {
    Together(text, n);
    TaughtIs(text, n);
    NeverCloses(text, n, |text|);
    AnswersIff(text);
    forall i: nat ensures (i <= n ==> (OpensAt(text, i) <==> OpensAt(Taken(text), i))) && (i > n ==> !OpensAt(text, i)) {
      if i <= n {
        OpensTogether(text, n, i);
      } else if i < |text| {
        NeverCloses(text, n, i);
      }
    }
    hide SpansAt, TaughtSpans, Taken;
  }

  lemma OpensTogether(text: string, n: nat, i: nat)
    requires i <= n && Separator(text, n) && forall j :: 0 <= j < n ==> !Separator(text, j)
    ensures OpensAt(text, i) <==> OpensAt(Taken(text), i)
  {
    Together(text, i);
    SameElse(text, i);
    if i + 1 < |text| {
      SameElse(text, i + 1);
    }
    hide Taken, Separator, ModeAt;
  }

  /** As here. */
  lemma OneHidden()
    ensures Separator("1'0//", 1) && Spans("1'0//") == [] && Spans("1'0//") != TaughtSpans("1'0//")
  {
    var t := "1'0//";
    assert StateAt(t, 1) == State(Code, Number);
    assert StateAt(t, 2) == StateAt(t, 3) == State(Code, Number);
    assert !Separator(t, 0) && !Separator(t, 3) && !Separator(t, 4);
    assert SpansAt(t, 1) == [];
    TaughtIs(t, 3);
    HidesIff(t, 1);
    assert OpensAt(Taken(t), 3);
  }
}
