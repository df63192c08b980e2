/**
 What comment_spans yields (cli/prose.py:132-165), said without a lexer: a text falls
 into characters of code, comments and literals one behind the other, in one way only as
 far as its comments go, and those are what is yielded.
*/
module CommentTiles {
  import opened Basics
  import opened CommentSpans

  /** text[begin..end]. */
  datatype Tile = Char(begin: nat, end: nat) | Comment(begin: nat, end: nat) | Literal(begin: nat, end: nat)

  predicate Quotes(c: char) { c == '"' || c == '\'' }

  /** The backslashes right before `k`, back to `lo`. */
  function Backslashes(text: string, lo: nat, k: nat): nat
    requires lo <= k <= |text|
    decreases k
  {
    if k > lo && text[k - 1] == '\\' then 1 + Backslashes(text, lo, k - 1) else 0
  }

  /** The quote at `b` is closed at `k`: by its like, behind an even number of backslashes. */
  predicate ClosesQuote(text: string, b: nat, k: nat) {
    b < k < |text| && text[k] == text[b] && Backslashes(text, b + 1, k) % 2 == 0
  }

  /** From a quote to the first that closes it, or to the text's end when none does. */
  ghost predicate IsLiteral(text: string, b: nat, e: nat) {
    && b < e <= |text| && Quotes(text[b])
    && (forall k :: b < k < e - 1 ==> !ClosesQuote(text, b, k))
    && (ClosesQuote(text, b, e - 1) || e == |text|)
  }

  predicate OpensComment(text: string, i: nat) {
    i + 1 < |text| && text[i] == '/' && (text[i + 1] == '/' || text[i + 1] == '*')
  }

  /** A comment with the line it begins on. */
  function SpanOn(text: string, t: Tile): Span {
    Span(1 + if t.begin <= |text| then Newlines(text, t.begin) else 0, t.begin, t.end)
  }

  ghost predicate IsTile(text: string, t: Tile) {
    match t
    case Char(b, e) => e == b + 1 <= |text| && !Quotes(text[b]) && !OpensComment(text, b)
    case Comment(b, e) => IsComment(text, SpanOn(text, t))
    case Literal(b, e) => IsLiteral(text, b, e)
  }

  /** One behind the other, from `from` to the text's end. */
  ghost predicate Tiles(text: string, from: nat, ts: seq<Tile>)
    decreases |ts|
  {
    if ts == [] then from == |text|
    else ts[0].begin == from && IsTile(text, ts[0]) && Tiles(text, ts[0].end, ts[1..])
  }

  function Comments(text: string, ts: seq<Tile>): seq<Span> {
    if ts == [] then []
    else (if ts[0].Comment? then [SpanOn(text, ts[0])] else []) + Comments(text, ts[1..])
  }

  // ---- every text does ---------------------------------------------------------------------

  /** The first close of a quote, if any. */
  lemma {:induction false} FirstClose(text: string, b: nat, from: nat) returns (e: nat)
    requires b < from <= |text| && Quotes(text[b])
    requires forall k :: b < k < from ==> !ClosesQuote(text, b, k)
    ensures IsLiteral(text, b, e)
    decreases |text| - from
  {
    if from == |text| {
      e := from;
    } else if ClosesQuote(text, b, from) {
      e := from + 1;
    } else {
      e := FirstClose(text, b, from + 1);
    }
  }

  lemma {:induction false} FirstNewline(text: string, b: nat, from: nat) returns (e: nat)
    requires b + 2 <= from <= |text| && text[b] == '/' && text[b + 1] == '/'
    requires forall k :: b <= k < from ==> text[k] != '\n'
    ensures IsComment(text, SpanOn(text, Comment(b, e)))
    decreases |text| - from
  {
    if from == |text| || text[from] == '\n' {
      e := from;
      hide Newlines;
    } else {
      e := FirstNewline(text, b, from + 1);
    }
  }

  lemma {:induction false} FirstStar(text: string, b: nat, from: nat) returns (e: nat)
    requires b + 2 <= from <= |text| && text[b] == '/' && text[b + 1] == '*'
    requires forall k :: b + 2 <= k < from ==> !Closes(text, k)
    ensures IsComment(text, SpanOn(text, Comment(b, e)))
    decreases |text| - from
  {
    hide Newlines;
    if from == |text| {
      e := from;
    } else if Closes(text, from) {
      e := from + 2;
    } else {
      e := FirstStar(text, b, from + 1);
    }
  }

  lemma FirstTile(text: string, i: nat) returns (t: Tile)
    requires i < |text|
    ensures t.begin == i && i < t.end <= |text| && IsTile(text, t)
  {
    hide Newlines, Backslashes;
    if Quotes(text[i]) {
      var e := FirstClose(text, i, i + 1);
      t := Literal(i, e);
    } else if OpensComment(text, i) && text[i + 1] == '/' {
      var e := FirstNewline(text, i, i + 2);
      t := Comment(i, e);
    } else if OpensComment(text, i) {
      var e := FirstStar(text, i, i + 2);
      t := Comment(i, e);
    } else {
      t := Char(i, i + 1);
    }
  }

  lemma {:induction false} Tiled(text: string, i: nat) returns (ts: seq<Tile>)
    requires i <= |text|
    ensures Tiles(text, i, ts)
    decreases |text| - i
  {
    hide IsTile;
    if i == |text| {
      ts := [];
    } else {
      var t := FirstTile(text, i);
      var rest := Tiled(text, t.end);
      ts := [t] + rest;
      assert ts[1..] == rest;
    }
  }

  // ---- and the scanner's spans are its comments ---------------------------------------------

  /** The lexer walks a literal, escaped behind every odd backslash. */
  lemma {:induction false} WalksLiteral(text: string, b: nat, k: nat)
    requires b < k <= |text| && Quotes(text[b]) && ModeAt(text, b + 1) == Quote(text[b])
    requires forall j :: b < j < k ==> !ClosesQuote(text, b, j)
    ensures ModeAt(text, k) == if Backslashes(text, b + 1, k) % 2 == 1 then Escape(text[b]) else Quote(text[b])
    ensures SpansAt(text, k) == SpansAt(text, b + 1)
    decreases k
  {
    if k > b + 1 {
      WalksLiteral(text, b, k - 1);
      assert !ClosesQuote(text, b, k - 1);
    }
  }

  /** Behind a tile the scanner stands as before it, with its comment told of. */
  lemma TileStands(text: string, t: Tile, spans: seq<Span>)
    requires t.begin < |text| && IsTile(text, t) && Stands(text, t.begin, 1 + Newlines(text, t.begin), spans)
    ensures t.begin < t.end <= |text|
    ensures var more := spans + if t.Comment? then [SpanOn(text, t)] else [];
      Stands(text, t.end, 1 + Newlines(text, t.end), more) || (t.end == |text| && more == Spans(text))
  {
    hide Stands, Newlines, IsLiteral, IsComment, Spans, SpanOn;
    assert !t.Comment? ==> spans + [] == spans;
    match t
    case Char(b, e) => CharStands(text, b, spans);
    case Comment(b, e) => CommentStands(text, t, spans);
    case Literal(b, e) =>
      LiteralEnds(text, b, e);
      LiteralStands(text, b, e, spans);
  }

  lemma CharStands(text: string, b: nat, spans: seq<Span>)
    requires b < |text| && !Quotes(text[b]) && !OpensComment(text, b) && Stands(text, b, 1 + Newlines(text, b), spans)
    ensures Stands(text, b + 1, 1 + Newlines(text, b + 1), spans)
  {
    Passes(text, b, 1 + Newlines(text, b), spans);
    hide Stands;
  }

  lemma LiteralEnds(text: string, b: nat, e: nat)
    requires IsLiteral(text, b, e)
    ensures b < e <= |text|
  {
    hide ClosesQuote;
  }

  lemma CommentStands(text: string, t: Tile, spans: seq<Span>)
    requires t.Comment? && t.begin < |text| && IsTile(text, t)
    requires Stands(text, t.begin, 1 + Newlines(text, t.begin), spans)
    ensures t.begin < t.end <= |text| && Stands(text, t.end, 1 + Newlines(text, t.end), spans + [SpanOn(text, t)])
  {
    var b, e := t.begin, t.end;
    hide Stands, Newlines, Closes;
    if text[b + 1] == '/' {
      LineStands(text, b, e, spans);
    } else if e >= b + 4 && Closes(text, e - 2) {
      ClosedComment(text, b, e, spans);
    } else {
      OpenComment(text, b, spans);
    }
  }

  lemma LineStands(text: string, b: nat, e: nat, spans: seq<Span>)
    requires b + 2 <= e <= |text| && Stands(text, b, 1 + Newlines(text, b), spans) && text[b] == '/' && text[b + 1] == '/'
    requires (e < |text| ==> text[e] == '\n') && forall k :: b <= k < e ==> text[k] != '\n'
    ensures Stands(text, e, 1 + Newlines(text, e), spans + [Span(1 + Newlines(text, b), b, e)])
  {
    hide Stands, Newlines;
    LineComment(text, b, e, 1 + Newlines(text, b), spans);
    NewlinesNone(text, b, e);
  }

  lemma ClosedComment(text: string, b: nat, e: nat, spans: seq<Span>)
    requires b + 4 <= e <= |text| && Stands(text, b, 1 + Newlines(text, b), spans) && text[b] == '/' && text[b + 1] == '*'
    requires Closes(text, e - 2) && forall k :: b + 2 <= k < e - 2 ==> !Closes(text, k)
    ensures Stands(text, e, 1 + Newlines(text, e), spans + [Span(1 + Newlines(text, b), b, e)])
  {
    hide Stands, Newlines, Closes;
    ClosesInside(text, e - 2);
    BlockComment(text, b, e - 2, 1 + Newlines(text, b), spans);
    NewlinesBetween(text, b, e);
  }

  lemma ClosesInside(text: string, k: nat)
    requires Closes(text, k)
    ensures k < |text|
  {
  }

  /** A block comment the text ends in. */
  lemma OpenComment(text: string, b: nat, spans: seq<Span>)
    requires b + 2 <= |text| && Stands(text, b, 1 + Newlines(text, b), spans) && text[b] == '/' && text[b + 1] == '*'
    requires forall k :: b + 2 <= k < |text| - 2 ==> !Closes(text, k)
    requires !(|text| >= b + 4 && Closes(text, |text| - 2))
    ensures Stands(text, |text|, 1 + Newlines(text, |text|), spans + [Span(1 + Newlines(text, b), b, |text|)])
  {
    hide Stands, Newlines;
    var n := |text|;
    forall k | b + 2 <= k < n ensures !Closes(text, k) {
    }
    BlockComment(text, b, n, 1 + Newlines(text, b), spans);
    NewlinesBetween(text, b, n);
  }

  lemma LiteralStands(text: string, b: nat, e: nat, spans: seq<Span>)
    requires b < |text| && IsLiteral(text, b, e) && Stands(text, b, 1 + Newlines(text, b), spans)
    ensures Stands(text, e, 1 + Newlines(text, e), spans) || (e == |text| && spans == Spans(text))
  {
    Opens(text, b, 1 + Newlines(text, b), spans);
    if ClosesQuote(text, b, e - 1) {
      WalksLiteral(text, b, e - 1);
      assert ModeAt(text, e) == Code && SpansAt(text, e) == spans;
      hide Newlines, ModeAt, SpansAt;
    } else {
      WalksLiteral(text, b, e);
      hide Newlines, ModeAt, SpansAt;
    }
  }

  lemma {:induction false} TilesAre(text: string, from: nat, ts: seq<Tile>, spans: seq<Span>)
    requires from <= |text| && Tiles(text, from, ts)
    requires Stands(text, from, 1 + Newlines(text, from), spans) || (from == |text| && spans == Spans(text))
    ensures spans + Comments(text, ts) == Spans(text)
    decreases |ts|
  {
    hide Stands, Newlines, IsTile, Spans;
    if ts == [] {
      if spans != Spans(text) {
        StandsAtEnd(text, from, 1 + Newlines(text, from), spans);
      }
    } else if from == |text| {
      NothingPast(text, ts[0]);
    } else {
      TileStands(text, ts[0], spans);
      var more := spans + if ts[0].Comment? then [SpanOn(text, ts[0])] else [];
      TilesAre(text, ts[0].end, ts[1..], more);
    }
  }

  lemma NothingPast(text: string, t: Tile)
    requires t.begin == |text|
    ensures !IsTile(text, t)
  {
  }

  /**
   Every text falls into such pieces, and however it does, the comments among them are the
   spans: none in a literal, each literal from its quote to the first unescaped like it.
  */
  lemma SpansAreComments(text: string)
    ensures exists ts :: Tiles(text, 0, ts)
    ensures forall ts :: Tiles(text, 0, ts) ==> Spans(text) == Comments(text, ts)
  {
    hide Tiles, Comments, Stands, Spans;
    var one := Tiled(text, 0);
    forall ts | Tiles(text, 0, ts) ensures Spans(text) == Comments(text, ts) {
      Begins(text);
      assert Newlines(text, 0) == 0;
      TilesAre(text, 0, ts, []);
      assert [] + Comments(text, ts) == Comments(text, ts);
    }
  }
}
