/**
 * Dialogue text: the parser that turns a string into 20-cell rows of glyph
 * codes (two rows to a page), the text box that reveals a page glyph by
 * glyph, and the full-screen text variant.
 */
module Text {
  import opened Types
  import opened Wrappers
  import opened Images

  /** Cells in one text row. */
  const ROW_LEN: nat := 20

  /** `n` cells of pad code 0. */
  function Zeros(n: nat): (r: seq<nat>)
    ensures |r| == n && forall i :: 0 <= i < n ==> r[i] == 0
  {
    if n == 0 then [] else Zeros(n - 1) + [0]
  }

  /** A row of pad code 0. */
  const Blank: seq<nat> := Zeros(ROW_LEN)

  /** The three ways `parse` panics. */
  datatype ParseError =
    | BadApostrophe   // an apostrophe followed by a character other than d, l, s, t, v, r, m
    | WordTooLong     // a word that does not fit in a row even at column 0
    | EmptyWord       // an empty word: leading, trailing or doubled whitespace, or an empty text

  /** Unicode White_Space, the set Rust's `char::is_whitespace` tests. */
  predicate IsWhitespace(c: char)
  {
    var n := c as int;
    (9 <= n <= 13) || n == 32 || n == 0x85 || n == 0xA0 || n == 0x1680 || (0x2000 <= n <= 0x200A)
    || n == 0x2028 || n == 0x2029 || n == 0x202F || n == 0x205F || n == 0x3000
  }

  /** The letters a contraction may continue with, in code order 256.. */
  const Contractions: string := "dlstvrm"

  /** The single glyph code of an apostrophe followed by `c`, if `c` may follow one. */
  function ContractionCode(c: char): Option<nat>
  {
    match c
    case 'd' => Some(256)
    case 'l' => Some(257)
    case 's' => Some(258)
    case 't' => Some(259)
    case 'v' => Some(260)
    case 'r' => Some(261)
    case 'm' => Some(262)
    case _ => None
  }

  /** The k-th contraction letter has code 256 + k, and no other character has one. */
  lemma ContractionCodes(c: char)
    ensures forall k :: 0 <= k < |Contractions| ==> ContractionCode(Contractions[k]) == Some(256 + k)
    ensures ContractionCode(c).Some? <==> c in Contractions
    ensures ContractionCode(c).Some? ==> 256 <= ContractionCode(c).value <= 262
  {
    assert Contractions == ['d', 'l', 's', 't', 'v', 'r', 'm'];
  }

  // ---------------------------------------------------------------------
  // Tokenizing: characters to words of glyph codes
  // ---------------------------------------------------------------------

  /** The tokenizer's locals: after an apostrophe, inside quotes, the current word, the finished words. */
  datatype Tok = Tok(a: bool, q: bool, word: seq<nat>, words: seq<seq<nat>>)

  /** One iteration of the character loop. */
  function TokStep(st: Tok, c: char): Result<Tok, ParseError>
  {
    if IsWhitespace(c) then Ok(st.(words := st.words + [st.word], word := []))
    else if st.a then
      match ContractionCode(c)
      case None => Err(BadApostrophe)
      case Some(code) => Ok(st.(word := st.word + [code], a := false))
    else if c == '\'' then Ok(st.(a := true))
    else if c == '"' then
      if st.q then Ok(st.(word := st.word + [264], q := false))
      else Ok(st.(word := st.word + [263], q := true))
    else Ok(st.(word := st.word + [c as int]))
  }

  /** The tokenizer's state after the first `n` characters. */
  function TokPrefix(s: string, n: nat): Result<Tok, ParseError>
    requires n <= |s|
  {
    if n == 0 then Ok(Tok(false, false, [], []))
    else
      match TokPrefix(s, n - 1)
      case Err(e) => Err(e)
      case Ok(st) => TokStep(st, s[n - 1])
  }

  /** The words of `s`: every whitespace character ends one, and the last is added at the end. */
  function Tokenize(s: string): Result<seq<seq<nat>>, ParseError>
  {
    match TokPrefix(s, |s|)
    case Err(e) => Err(e)
    case Ok(st) => Ok(st.words + [st.word])
  }

  /** Once the tokenizer has panicked, later characters do not matter. */
  lemma {:induction false} TokErrPersists(s: string, n: nat, m: nat)
    requires n <= m <= |s| && TokPrefix(s, n).Err?
    ensures TokPrefix(s, m) == TokPrefix(s, n)
    decreases m - n
  {
    if n < m {
      TokErrPersists(s, n, m - 1);
    }
  }

  /** Finished words are never taken back: the words after `n` characters begin with those after `m <= n`. */
  lemma {:induction false} TokWordsGrow(s: string, m: nat, n: nat)
    requires m <= n <= |s| && TokPrefix(s, n).Ok?
    ensures TokPrefix(s, m).Ok?
    ensures TokPrefix(s, m).value.words <= TokPrefix(s, n).value.words
    decreases n - m
  {
    if m < n {
      TokWordsGrow(s, m, n - 1);
    }
  }

  /** Straight double quotes counted in `s`. */
  function CountQuotes(s: string): nat
  {
    if s == [] then 0 else CountQuotes(s[..|s| - 1]) + (if s[|s| - 1] == '"' then 1 else 0)
  }

  /** In a text that has not panicked, the quote flag is set exactly after an odd number of quotes. */
  lemma {:induction false} QuoteParity(s: string, n: nat)
    requires n <= |s| && TokPrefix(s, n).Ok?
    ensures TokPrefix(s, n).value.q <==> CountQuotes(s[..n]) % 2 == 1
  {
    if n > 0 {
      QuoteParity(s, n - 1);
      assert s[..n][..n - 1] == s[..n - 1];
    }
  }

  /**
   * Quotes alternate: a quote after an even number of quotes adds the
   * opening code 263, after an odd number the closing code 264.
   */
  lemma QuoteCodes(s: string, n: nat)
    requires n < |s| && s[n] == '"' && TokPrefix(s, n).Ok? && !TokPrefix(s, n).value.a
    ensures TokPrefix(s, n + 1).Ok?
    ensures TokPrefix(s, n + 1).value.word
            == TokPrefix(s, n).value.word + [if CountQuotes(s[..n]) % 2 == 0 then 263 else 264]
  {
    assert !IsWhitespace(s[n]);
    QuoteParity(s, n);
  }

  /**
   * After an apostrophe the next non-blank character must be a contraction
   * letter, which becomes its single code; anything else panics.
   */
  lemma ApostropheCodes(s: string, n: nat)
    requires n < |s| && TokPrefix(s, n).Ok? && TokPrefix(s, n).value.a && !IsWhitespace(s[n])
    ensures TokPrefix(s, n + 1).Ok? <==> s[n] in Contractions
    ensures TokPrefix(s, n + 1).Ok? ==>
              exists k :: 0 <= k < |Contractions| && s[n] == Contractions[k]
                && TokPrefix(s, n + 1).value.word == TokPrefix(s, n).value.word + [256 + k]
  {
    ContractionCodes(s[n]);
    if s[n] in Contractions {
      var k :| 0 <= k < |Contractions| && s[n] == Contractions[k];
      assert TokPrefix(s, n + 1).value.word == TokPrefix(s, n).value.word + [256 + k];
    }
  }

  // ---------------------------------------------------------------------
  // Laying out: words to rows
  // ---------------------------------------------------------------------

  /** The layout loop's locals: new page pending, next column, current row, finished rows. */
  datatype Lay = Lay(nl: bool, li: nat, line: seq<nat>, r: seq<seq<nat>>)

  /** `w` written over `line` from column `li`. */
  function Place(line: seq<nat>, li: nat, w: seq<nat>): (r: seq<nat>)
    requires li + |w| <= |line|
    ensures |r| == |line|
  {
    line[..li] + w + line[li + |w|..]
  }

  /** The codes that end a sentence: '!', '?', '.' and '*'. */
  predicate EndsSentence(code: nat)
  {
    code == 33 || code == 63 || code == 46 || code == 42
  }

  /** Whether the word `w` goes to column 0 of a fresh row. */
  predicate FreshRow(st: Lay, w: seq<nat>)
  {
    st.nl || st.li + |w| + 1 >= ROW_LEN
  }

  /** The state after the row change (if any) that precedes placing `w`. */
  function BreakBefore(st: Lay, w: seq<nat>): Lay
  {
    if st.nl then
      var r := st.r + [st.line];
      Lay(st.nl, 0, Blank, if |r| % 2 == 1 then r + [Blank] else r)
    else if st.li + |w| + 1 >= ROW_LEN then Lay(st.nl, 0, Blank, st.r + [st.line])
    else st
  }

  /** One iteration of the word loop. */
  function LayStep(st: Lay, w: seq<nat>): (r: Result<Lay, ParseError>)
    requires |st.line| == ROW_LEN
    ensures r.Ok? ==> |r.value.line| == ROW_LEN && r.value.li <= ROW_LEN + 1
  {
    var b := BreakBefore(st, w);
    if b.li + |w| > ROW_LEN then Err(WordTooLong)
    else if |w| == 0 then Err(EmptyWord)
    else Ok(Lay(EndsSentence(w[|w| - 1]), b.li + |w| + 1, Place(b.line, b.li, w), b.r))
  }

  /** Every row in `rows` has `ROW_LEN` cells. */
  predicate RowsWellFormed(rows: seq<seq<nat>>)
  {
    forall k :: 0 <= k < |rows| ==> |rows[k]| == ROW_LEN
  }

  /** The layout state after the first `n` words; rows always have 20 cells. */
  function LayPrefix(ws: seq<seq<nat>>, n: nat): (r: Result<Lay, ParseError>)
    requires n <= |ws|
    ensures r.Ok? ==> |r.value.line| == ROW_LEN && RowsWellFormed(r.value.r)
  {
    if n == 0 then Ok(Lay(false, 0, Blank, []))
    else
      match LayPrefix(ws, n - 1)
      case Err(e) => Err(e)
      case Ok(st) => LayStep(st, ws[n - 1])
  }

  /** The rows after the last word: the current row, then a blank one if that leaves an odd count. */
  function Finish(st: Lay): seq<seq<nat>>
  {
    var r := st.r + [st.line];
    if |r| % 2 > 0 then r + [Blank] else r
  }

  /**
   * What `parse` returns for `s`, or how it panics; a successful parse is
   * always a non-empty, even number of rows of 20 cells.
   */
  function ParseSpec(s: string): (r: Result<seq<seq<nat>>, ParseError>)
    ensures r.Ok? ==> |r.value| >= 2 && |r.value| % 2 == 0
    ensures r.Ok? ==> RowsWellFormed(r.value)
  {
    match Tokenize(s)
    case Err(e) => Err(e)
    case Ok(ws) =>
      match LayPrefix(ws, |ws|)
      case Err(e) => Err(e)
      case Ok(st) => Ok(Finish(st))
  }

  /** Once the layout has panicked, later words do not matter. */
  lemma {:induction false} LayErrPersists(ws: seq<seq<nat>>, n: nat, m: nat)
    requires n <= m <= |ws| && LayPrefix(ws, n).Err?
    ensures LayPrefix(ws, m) == LayPrefix(ws, n)
    decreases m - n
  {
    if n < m {
      LayErrPersists(ws, n, m - 1);
    }
  }

  /**
   * Word placement: a word goes to column 0 of a fresh row after a
   * sentence end or when `li + |w| + 1 >= 20`, and otherwise to column
   * `li` of the current row, which keeps its earlier cells; the next word
   * is considered from one blank cell after it.
   */
  lemma WordPlacement(st: Lay, w: seq<nat>)
    requires |st.line| == ROW_LEN && LayStep(st, w).Ok?
    ensures var st' := LayStep(st, w).value;
            var col := if FreshRow(st, w) then 0 else st.li;
            && st'.li == col + |w| + 1
            && st'.line[col..col + |w|] == w
            && (FreshRow(st, w) ==> st'.line[..col] == [] && st'.line[|w|..] == Blank[|w|..])
            && (!FreshRow(st, w) ==> st'.line[..col] == st.line[..col] && st'.line[col + |w|..] == st.line[col + |w|..])
            && (!FreshRow(st, w) ==> st'.r == st.r)
            && (FreshRow(st, w) && !st.nl ==> st'.r == st.r + [st.line])
  {
  }

  /**
   * After a word ending in '!', '?', '.' or '*', the next word opens a new
   * page: the current row is finished, padded with a blank row when it was
   * the top row of its page, and the word sits at column 0 of a row with an
   * even index.
   */
  lemma SentenceStartsPage(st: Lay, w: seq<nat>)
    requires |st.line| == ROW_LEN && LayStep(st, w).Ok?
    ensures LayStep(st, w).value.nl <==> EndsSentence(w[|w| - 1])
    ensures st.nl ==> |LayStep(st, w).value.r| % 2 == 0
                      && LayStep(st, w).value.r[..|st.r| + 1] == st.r + [st.line]
                      && LayStep(st, w).value.line[..|w|] == w
  {
  }

  /** A single empty word anywhere makes the layout panic. */
  lemma {:induction false} EmptyWordPanics(ws: seq<seq<nat>>, k: nat, n: nat)
    requires k < n <= |ws| && ws[k] == []
    ensures LayPrefix(ws, n).Err?
    decreases n
  {
    if n == k + 1 {
      if LayPrefix(ws, k).Ok? {
        var st := LayPrefix(ws, k).value;
        assert BreakBefore(st, []).li <= ROW_LEN;
      }
    } else {
      EmptyWordPanics(ws, k, n - 1);
      LayErrPersists(ws, n - 1, n);
    }
  }

  /** A text ending in whitespace (or the empty text) panics: its last word is empty. */
  lemma TrailingWhitespacePanics(s: string)
    requires s == [] || IsWhitespace(s[|s| - 1])
    ensures ParseSpec(s).Err?
  {
    if Tokenize(s).Ok? {
      var ws := Tokenize(s).value;
      EmptyWordPanics(ws, |ws| - 1, |ws|);
    }
  }

  /** Two whitespace characters in a row, or a leading one, make `parse` panic: they delimit an empty word. */
  lemma DoubledWhitespacePanics(s: string, i: nat)
    requires i < |s| && IsWhitespace(s[i]) && (i == 0 || IsWhitespace(s[i - 1]))
    ensures ParseSpec(s).Err?
  {
    if Tokenize(s).Ok? {
      TokWordsGrow(s, i, |s|);
      TokWordsGrow(s, i + 1, |s|);
      var before := TokPrefix(s, i).value;
      if i > 0 {
        TokWordsGrow(s, i - 1, i);
        assert before.word == [];
      }
      var after := TokPrefix(s, i + 1).value;
      assert after.words[|before.words|] == [];
      var ws := Tokenize(s).value;
      assert ws[|before.words|] == [] by {
        assert after.words <= TokPrefix(s, |s|).value.words;
      }
      EmptyWordPanics(ws, |before.words|, |ws|);
    }
  }

  /** A text of one word: its codes in the first cells of a page of two rows. */
  lemma ParseOneWord()
    ensures ParseSpec("Hi!") == Ok([[72, 105, 33] + Blank[3..], Blank])
  {
    var s := "Hi!";
    var t0 := Tok(false, false, [], []);
    assert s[0] as int == 72 && s[0] != '\'' && s[0] != '"' && !IsWhitespace(s[0]);
    assert TokPrefix(s, 1) == Ok(t0.(word := t0.word + [s[0] as int]));
    var t1 := Tok(false, false, [72], []);
    assert t0.word + [s[0] as int] == [72];
    assert TokPrefix(s, 1) == Ok(t1);
    assert s[1] as int == 105 && s[1] != '\'' && s[1] != '"' && !IsWhitespace(s[1]);
    assert TokPrefix(s, 2) == Ok(t1.(word := t1.word + [s[1] as int]));
    var t2 := Tok(false, false, [72, 105], []);
    assert t1.word + [s[1] as int] == [72, 105];
    assert TokPrefix(s, 2) == Ok(t2);
    assert s[2] as int == 33 && s[2] != '\'' && s[2] != '"' && !IsWhitespace(s[2]);
    assert TokPrefix(s, 3) == Ok(t2.(word := t2.word + [s[2] as int]));
    assert t2.word + [s[2] as int] == [72, 105, 33];
    assert TokPrefix(s, 3) == Ok(Tok(false, false, [72, 105, 33], []));
    assert |s| == 3;
    var none: seq<seq<nat>> := [];
    assert none + [[72, 105, 33]] == [[72, 105, 33]];
    assert Tokenize(s) == Ok([[72, 105, 33]]);
    var ws := [[72, 105, 33]];
    assert LayPrefix(ws, 1) == LayStep(Lay(false, 0, Blank, []), ws[0]);
    assert Place(Blank, 0, ws[0]) == [72, 105, 33] + Blank[3..];
    var done := Lay(true, 4, [72, 105, 33] + Blank[3..], []);
    assert LayPrefix(ws, 1) == Ok(done);
    assert Finish(done) == [[72, 105, 33] + Blank[3..], Blank];
    assert ParseSpec(s) == Ok(Finish(done));
  }

  /** `parse`: tokenize, then lay the words out in rows of 20 cells, two rows to a page. */
  method Parse(s: string) returns (r: Result<seq<seq<nat>>, ParseError>)
    ensures r == ParseSpec(s)
  {
    var a, q := false, false;
    var word: seq<nat> := [];
    var words: seq<seq<nat>> := [];
    var i := 0;
    while i < |s|
      invariant 0 <= i <= |s|
      invariant TokPrefix(s, i) == Ok(Tok(a, q, word, words))
    {
      var c := s[i];
      if IsWhitespace(c) {
        words := words + [word];
        word := [];
      } else if a {
        var code := ContractionCode(c);
        if code.None? {
          TokErrPersists(s, i + 1, |s|);
          return Err(BadApostrophe);
        }
        word := word + [code.value];
        a := false;
      } else if c == '\'' {
        a := true;
      } else if c == '"' {
        if q {
          word := word + [264];
          q := false;
        } else {
          word := word + [263];
          q := true;
        }
      } else {
        word := word + [c as int];
      }
      i := i + 1;
    }
    words := words + [word];
    r := Layout(words);
  }

  /** The word loop of `parse`, writing each word into a fixed 20-cell row buffer. */
  method Layout(words: seq<seq<nat>>) returns (r: Result<seq<seq<nat>>, ParseError>)
    ensures r == (match LayPrefix(words, |words|) case Err(e) => Err(e) case Ok(st) => Ok(Finish(st)))
  {
    var nl := false;
    var li: nat := 0;
    var line := NewRow();
    var rows: seq<seq<nat>> := [];
    var k := 0;
    while k < |words|
      invariant 0 <= k <= |words| && line.Length == ROW_LEN && fresh(line)
      invariant LayPrefix(words, k) == Ok(Lay(nl, li, line[..], rows))
    {
      var w := words[k];
      ghost var st := Lay(nl, li, line[..], rows);
      li, line, rows := BreakRow(nl, li, line, rows, w);
      ghost var b := BreakBefore(st, w);
      var fits := WriteWord(line, li, w);
      if !fits {
        assert LayStep(st, w) == Err(WordTooLong);
        LayErrPersists(words, k + 1, |words|);
        return Err(WordTooLong);
      }
      assert line[..] == Place(b.line, b.li, w);
      li := li + |w| + 1;
      if |w| == 0 {
        assert LayStep(st, w) == Err(EmptyWord);
        LayErrPersists(words, k + 1, |words|);
        return Err(EmptyWord);
      }
      nl := EndsSentence(w[|w| - 1]);
      assert LayStep(st, w) == Ok(Lay(EndsSentence(w[|w| - 1]), b.li + |w| + 1, Place(b.line, b.li, w), b.r));
      k := k + 1;
    }
    rows := rows + [line[..]];
    if |rows| % 2 > 0 {
      rows := rows + [Blank];
    }
    r := Ok(rows);
  }

  /** The row break before a word: after a sentence end the page is completed, and a word that would reach the last column moves to a new row. */
  method BreakRow(nl: bool, li: nat, line: array<nat>, rows: seq<seq<nat>>, w: seq<nat>)
    returns (li': nat, line': array<nat>, rows': seq<seq<nat>>)
    requires line.Length == ROW_LEN
    ensures line'.Length == ROW_LEN && (line' == line || fresh(line'))
    ensures Lay(nl, li', line'[..], rows') == BreakBefore(Lay(nl, li, line[..], rows), w)
  {
    li', line', rows' := li, line, rows;
    if nl {
      rows' := rows' + [line[..]];
      if |rows'| % 2 == 1 {
        rows' := rows' + [Blank];
      }
      li' := 0;
      line' := NewRow();
    } else if li + |w| + 1 >= ROW_LEN {
      rows' := rows' + [line[..]];
      li' := 0;
      line' := NewRow();
    }
  }

  /** A fresh row buffer of pad code 0. */
  method NewRow() returns (line: array<nat>)
    ensures fresh(line) && line[..] == Blank
  {
    line := new nat[ROW_LEN](_ => 0);
    assert line[..] == Blank;
  }

  /** The inner loop of the word loop: copy `w` into `line` from column `li`, panicking past the last cell. */
  method WriteWord(line: array<nat>, li: nat, w: seq<nat>) returns (fits: bool)
    requires li <= line.Length
    modifies line
    ensures fits <==> li + |w| <= line.Length
    ensures fits ==> line[..] == Place(old(line[..]), li, w)
  {
    ghost var line0 := line[..];
    var wi := 0;
    while wi < |w|
      invariant 0 <= wi <= |w| && (wi > 0 ==> li + wi <= line.Length)
      invariant wi > 0 ==> line[..] == line0[..li] + w[..wi] + line0[li + wi..]
      invariant wi == 0 ==> line[..] == line0
    {
      if li + wi >= line.Length {
        return false;
      }
      line[li + wi] := w[wi];
      wi := wi + 1;
    }
    assert w[..wi] == w;
    return true;
  }

  // ---------------------------------------------------------------------
  // The text box
  // ---------------------------------------------------------------------

  /** A glyph sheet and the function that locates a code's glyph in it. */
  class Textset {
    const image: Image
    const getCoord: nat -> Vec2i

    constructor (image: Image, getCoord: nat -> Vec2i)
      ensures this.image == image && this.getCoord == getCoord
    {
      this.image := image;
      this.getCoord := getCoord;
    }

    /** The 8x8 glyph cell of code `c`. */
    function GetRect(c: nat): (r: Rect)
      ensures r == Rect(getCoord(c), Vec2i(TILE_SZ, TILE_SZ))
    {
      Rect(getCoord(c), Vec2i(TILE_SZ, TILE_SZ))
    }
  }

  /** Which sheet cell a text-box cell shows: a frame piece `base[k]`, or the glyph of a code. */
  datatype FrameChoice = Base(k: nat) | Glyph(code: nat)

  /** The ten frame pieces of border set `level`. */
  function BaseOf(ts: Textset, level: nat): (r: seq<Rect>)
    ensures |r| == 10
    ensures forall k :: 0 <= k < 10 ==> r[k] == ts.GetRect(10 * level + k)
  {
    seq(10, k requires 0 <= k < 10 => ts.GetRect(10 * level + k))
  }

  /** The 22x6-cell dialogue box at the bottom of the screen. */
  class Textbox {
    var position: Vec2i
    const dims: (nat, nat)
    const textset: Textset
    var base: seq<Rect>
    var rows: seq<seq<nat>>
    var rptr: nat
    var cptr: nat

    /** The page shown is rows `rptr - 1` and `rptr`, so `rptr` stays odd; the rows come from `parse`. */
    ghost predicate Valid()
      reads this
    {
      |base| == 10 && rptr % 2 == 1 && |rows| % 2 == 0 && RowsWellFormed(rows)
    }

    constructor (textset: Textset)
      ensures Valid()
      ensures this.textset == textset && base == BaseOf(textset, 0)
      ensures position == Vec2i(0, HEIGHT - 48) && dims == (22, 6)
      ensures rows == [] && rptr == 1 && cptr == 0
    {
      position := Vec2i(0, HEIGHT - 48);
      dims := (22, 6);
      this.textset := textset;
      base := BaseOf(textset, 0);
      rows := [];
      rptr := 1;
      cptr := 0;
    }

    /** Switch to the frame pieces of border set `level` (glyph codes 10*level .. 10*level + 9). */
    method SetBase(level: nat)
      requires Valid()
      modifies this
      ensures Valid()
      ensures base == BaseOf(textset, level)
      ensures rows == old(rows) && rptr == old(rptr) && cptr == old(cptr) && position == old(position)
    {
      base := BaseOf(textset, level);
    }

    /** Load new text; a text that `parse` rejects is fatal. */
    method SetText(text: string)
      requires Valid() && ParseSpec(text).Ok?
      modifies this
      ensures Valid()
      ensures rows == ParseSpec(text).value && rptr == 1 && cptr == 0
      ensures base == old(base) && position == old(position)
    {
      cptr := 0;
      var parsed := Parse(text);
      rows := parsed.value;
      rptr := 1;
    }

    /** Turn the page; the result says whether there is a page left to show. */
    method Scroll() returns (more: bool)
      requires Valid()
      modifies this
      ensures Valid()
      ensures cptr == 0 && rptr == old(rptr) + 2 && rows == old(rows) && base == old(base)
      ensures position == old(position)
      ensures more <==> rptr < |rows|
      ensures more ==> rptr - 1 < rptr < |rows|
    {
      cptr := 0;
      rptr := rptr + 2;
      more := rptr < |rows|;
    }

    /** The indexing in `draw` at cell (x, y) does not panic. */
    predicate Drawable(x: nat, y: nat)
      reads this
    {
      |rows| > 0 && |base| == 10
      && (y == 2 && 1 <= x <= 20 && TSPEED * (x - 1) <= cptr ==> 1 <= rptr <= |rows| && x - 1 < |rows[rptr - 1]|)
      && (y == 4 && 1 <= x <= 19 && TSPEED * (x + 19) <= cptr ==> rptr < |rows| && x - 1 < |rows[rptr]|)
    }

    /** What `draw` shows at cell (x, y) of the 22x6 box. */
    function FrameAt(x: nat, y: nat): (r: FrameChoice)
      reads this
      requires x < 22 && y < 6 && Drawable(x, y)
      ensures r.Base? ==> r.k < 10
      ensures r.Glyph? ==> 1 <= x <= 20 && (y == 2 || y == 4)
    {
      var isLast := rptr >= |rows| - 1;
      if x == 0 && y == 0 then Base(1)
      else if x == 21 && y == 0 then Base(2)
      else if x == 21 && y == 5 then Base(3)
      else if x == 0 && y == 5 then Base(4)
      else if y == 0 then Base(5)
      else if y == 5 then Base(6)
      else if x == 0 then Base(7)
      else if x == 21 then Base(8)
      else if x == 20 && y == 4 then (if !isLast then Base(9) else Base(0))
      else if y == 2 then (if TSPEED * (x - 1) <= cptr then Glyph(rows[rptr - 1][x - 1]) else Base(0))
      else if y == 4 then (if TSPEED * (x + 19) <= cptr then Glyph(rows[rptr][x - 1]) else Base(0))
      else Base(0)
    }

    /** The sheet rectangle of a frame choice. */
    function FrameRect(f: FrameChoice): Rect
      reads this
      requires |base| == 10 && (f.Base? ==> f.k < 10)
    {
      match f
      case Base(k) => base[k]
      case Glyph(code) => textset.GetRect(code)
    }

    /** While a page is shown (after `set_text`, or a `scroll` that returned true) every cell can be drawn. */
    lemma ShownPageDrawable(x: nat, y: nat)
      requires Valid() && 1 <= rptr < |rows|
      ensures Drawable(x, y)
    {
    }

    /**
     * The reveal: top-row glyph x (1..20) shows row `rptr - 1` cell x - 1
     * once `TSPEED * (x - 1) <= cptr`, bottom-row glyph x (1..19) shows row
     * `rptr` cell x - 1 once `TSPEED * (x + 19) <= cptr`; until then the
     * cell is blank.
     */
    lemma RevealRule(x: nat)
      requires Valid() && 1 <= rptr < |rows| && 1 <= x <= 20
      ensures FrameAt(x, 2) == (if TSPEED * (x - 1) <= cptr then Glyph(rows[rptr - 1][x - 1]) else Base(0))
      ensures x <= 19 ==>
                FrameAt(x, 4) == (if TSPEED * (x + 19) <= cptr then Glyph(rows[rptr][x - 1]) else Base(0))
    {
    }

    /** Glyphs appear in reading order: a shown glyph has every glyph before it on the page shown too. */
    lemma RevealInReadingOrder(x: nat, x': nat)
      requires Valid() && 1 <= rptr < |rows| && 1 <= x' <= x <= 20
      ensures FrameAt(x, 2).Glyph? ==> FrameAt(x', 2).Glyph?
      ensures x <= 19 && FrameAt(x, 4).Glyph? ==> FrameAt(x', 4).Glyph? && FrameAt(20, 2).Glyph?
    {
    }

    /** The arrow at (20, 4) is shown exactly when a later page exists, and never a glyph. */
    lemma ArrowRule()
      requires Valid() && 1 <= rptr < |rows|
      ensures FrameAt(20, 4) == (if rptr + 1 < |rows| then Base(9) else Base(0))
    {
    }

    /** The border: corners and edges show frame pieces 1..8. */
    lemma BorderRule(x: nat, y: nat)
      requires Drawable(x, y) && x < 22 && y < 6 && (x == 0 || x == 21 || y == 0 || y == 5)
      ensures FrameAt(x, y).Base? && 1 <= FrameAt(x, y).k <= 8
    {
    }
  }

  /** The full-screen text variant; its wipe animation is not modelled. */
  class Textscreen {
    var position: Vec2i
    const textset: Textset
    var rows: seq<seq<nat>>
    var rptr: nat
    var cptr: nat
    var animc: int

    ghost predicate Valid()
      reads this
    {
      rptr % 2 == 1 && |rows| % 2 == 0 && RowsWellFormed(rows)
    }

    constructor (textset: Textset, text: string)
      requires ParseSpec(text).Ok?
      ensures Valid()
      ensures this.textset == textset && rows == ParseSpec(text).value
      ensures position == Vec2i(0, HEIGHT - 48) && rptr == 1 && cptr == 0 && animc == 242
    {
      var parsed := Parse(text);
      position := Vec2i(0, HEIGHT - 48);
      this.textset := textset;
      rows := parsed.value;
      rptr := 1;
      cptr := 0;
      animc := 242;
    }

    method SetText(text: string)
      requires Valid() && ParseSpec(text).Ok?
      modifies this
      ensures Valid()
      ensures rows == ParseSpec(text).value && rptr == 1 && cptr == 0
      ensures position == old(position) && animc == old(animc)
    {
      cptr := 0;
      var parsed := Parse(text);
      rows := parsed.value;
      rptr := 1;
    }

    method Scroll() returns (more: bool)
      requires Valid()
      modifies this
      ensures Valid()
      ensures cptr == 0 && rptr == old(rptr) + 2 && rows == old(rows)
      ensures position == old(position) && animc == old(animc)
      ensures more <==> rptr < |rows|
    {
      cptr := 0;
      rptr := rptr + 2;
      more := rptr < |rows|;
    }
  }
}
