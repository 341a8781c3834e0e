/** Lines and columns of a text, in bytes of UTF-8 and in units of UTF-16. */
module LineIndex {

  type Text = seq<char>

  /** Length of a character in UTF-8. */
  function Len8(c: char): (r: nat)
    ensures 1 <= r <= 4
  {
    if c as int < 0x80 then 1 else if c as int < 0x800 then 2 else if c as int < 0x1_0000 then 3 else 4
  }

  /** Length of a character in UTF-16. */
  function Len16(c: char): (r: nat)
    ensures 1 <= r <= 2
  {
    if c as int < 0x1_0000 then 1 else 2
  }

  function Bytes(t: Text): nat {
    if t == [] then 0 else Bytes(t[..|t| - 1]) + Len8(t[|t| - 1])
  }

  function Units(t: Text): nat {
    if t == [] then 0 else Units(t[..|t| - 1]) + Len16(t[|t| - 1])
  }

  /** A character outside ASCII: where it starts and ends in its line. */
  datatype Utf16Char = Utf16Char(start: nat, end: nat)

  function LenUtf16(c: Utf16Char): nat {
    if c.end - c.start == 4 then 2 else 1
  }

  datatype Index = Index(newlines: seq<nat>, utf16Lines: map<nat, seq<Utf16Char>>, len: nat)

  datatype LineCol = LineCol(line: nat, col: nat)

  // ---------------------------------------------------------------- lines, by counting

  /** The lines of a text, without their newlines. */
  function Lines(t: Text): (r: seq<Text>)
    ensures |r| > 0
  {
    if t == [] then [[]]
    else
      var ls := Lines(t[..|t| - 1]);
      if t[|t| - 1] == '\n' then ls + [[]] else ls[..|ls| - 1] + [ls[|ls| - 1] + [t[|t| - 1]]]
  }

  function LastLine(t: Text): Text {
    Lines(t)[|Lines(t)| - 1]
  }

  /** Where the lines start. */
  function Starts(t: Text): (r: seq<nat>)
    ensures |r| == |Lines(t)|
  {
    if t == [] then [0]
    else if t[|t| - 1] == '\n' then Starts(t[..|t| - 1]) + [Bytes(t)]
    else Starts(t[..|t| - 1])
  }

  /** The entry for a character at a column, unless it is ASCII. */
  function WideChar(col: nat, c: char): seq<Utf16Char> {
    if c as int >= 0x80 then [Utf16Char(col, col + Len8(c))] else []
  }

  /** The characters outside ASCII of a line. */
  function Wide(line: Text): seq<Utf16Char> {
    if line == [] then []
    else
      var c, before := line[|line| - 1], line[..|line| - 1];
      if Len8(c) > 1 then Wide(before) + [Utf16Char(Bytes(before), Bytes(line))] else Wide(before)
  }

  /** The entries for lines with characters outside ASCII. */
  function WideLines(lines: seq<Text>): map<nat, seq<Utf16Char>> {
    map l: nat | l < |lines| && Wide(lines[l]) != [] :: Wide(lines[l])
  }

  function IndexOf(t: Text): Index {
    Index(Starts(t), WideLines(Lines(t)), Bytes(t))
  }

  /** One pass over the text. */
  method New(text: Text) returns (index: Index)
    ensures index == IndexOf(text)
  {
    var utf16Lines: map<nat, seq<Utf16Char>> := map[];
    var utf16Chars: seq<Utf16Char> := [];
    var newlines: seq<nat> := [0];
    var currRow, currCol, line := 0, 0, 0;
    assert text[..0] == [];
    for i := 0 to |text|
      invariant currRow == Bytes(text[..i]) && newlines == Starts(text[..i])
      invariant line == |Lines(text[..i])| - 1 && currCol == Bytes(LastLine(text[..i]))
      invariant utf16Chars == Wide(LastLine(text[..i]))
      invariant utf16Lines == WideLines(Lines(text[..i])[..line])
    {
      var c := text[i];
      var len := Len8(c);
      PushChar(text, i);
      currRow := currRow + len;
      if c == '\n' {
        newlines := newlines + [currRow];
        if utf16Chars != [] {
          utf16Lines := utf16Lines[line := utf16Chars];
          utf16Chars := [];
        }
        currCol := 0;
        line := line + 1;
        continue;
      }
      if c as int >= 0x80 {
        utf16Chars := utf16Chars + [Utf16Char(currCol, currCol + len)];
      }
      currCol := currCol + len;
    }
    assert text[..|text|] == text;
    LastWide(Lines(text));
    if utf16Chars != [] {
      utf16Lines := utf16Lines[line := utf16Chars];
    }
    index := Index(newlines, utf16Lines, Bytes(text));
  }

  /** One more character. */
  lemma PushChar(text: Text, i: nat)
    requires i < |text|
    ensures Bytes(text[..i + 1]) == Bytes(text[..i]) + Len8(text[i])
    ensures text[i] == '\n' ==>
      && Starts(text[..i + 1]) == Starts(text[..i]) + [Bytes(text[..i + 1])] && Lines(text[..i + 1]) == Lines(text[..i]) + [[]]
      && WideLines(Lines(text[..i + 1])[..|Lines(text[..i])|]) == WideLines(Lines(text[..i]))
      && WideLines(Lines(text[..i])) == AddWide(WideLines(Lines(text[..i])[..|Lines(text[..i])| - 1]), |Lines(text[..i])| - 1, Wide(LastLine(text[..i])))
    ensures text[i] != '\n' ==>
      && Starts(text[..i + 1]) == Starts(text[..i]) && |Lines(text[..i + 1])| == |Lines(text[..i])|
      && Lines(text[..i + 1])[..|Lines(text[..i])| - 1] == Lines(text[..i])[..|Lines(text[..i])| - 1]
      && LastLine(text[..i + 1]) == LastLine(text[..i]) + [text[i]]
      && Bytes(LastLine(text[..i + 1])) == Bytes(LastLine(text[..i])) + Len8(text[i])
      && Wide(LastLine(text[..i + 1])) == Wide(LastLine(text[..i])) + WideChar(Bytes(LastLine(text[..i])), text[i])
  {
    hide Wide, Bytes, WideChar;
    assert text[..i + 1][..i] == text[..i];
    PushBytes(text[..i], text[i]);
    assert text[..i] + [text[i]] == text[..i + 1];
    var ls := Lines(text[..i]);
    LastWide(ls);
    if text[i] == '\n' {
      assert (ls + [[]])[..|ls|] == ls;
    } else {
      PushBytes(ls[|ls| - 1], text[i]);
    }
  }

  lemma PushBytes(t: Text, c: char)
    ensures Bytes(t + [c]) == Bytes(t) + Len8(c) && Units(t + [c]) == Units(t) + Len16(c)
    ensures Wide(t + [c]) == Wide(t) + WideChar(Bytes(t), c)
  {
    assert (t + [c])[..|t|] == t;
  }

  function AddWide(m: map<nat, seq<Utf16Char>>, line: nat, wide: seq<Utf16Char>): map<nat, seq<Utf16Char>> {
    if wide != [] then m[line := wide] else m
  }

  lemma LastWide(ls: seq<Text>)
    requires |ls| > 0
    ensures WideLines(ls) == AddWide(WideLines(ls[..|ls| - 1]), |ls| - 1, Wide(ls[|ls| - 1]))
  {
    hide Wide;
  }

  // ---------------------------------------------------------------- queries

  predicate Ascending(s: seq<nat>) {
    forall i, j :: 0 <= i < j < |s| ==> s[i] < s[j]
  }

  /** How many of the ascending numbers are below `n`. */
  function CountBelow(s: seq<nat>, n: nat): (r: nat)
    ensures r <= |s| && (forall i :: 0 <= i < r ==> s[i] < n) && (r < |s| ==> s[r] >= n)
  {
    if s == [] || s[0] >= n then 0
    else
      var r := 1 + CountBelow(s[1..], n);
      assert forall i :: 0 < i < |s| ==> s[i] == s[1..][i - 1];
      r
  }

  /** The line that holds an offset. */
  function LineAt(index: Index, offset: nat): (r: int)
    ensures index.newlines != [] && index.newlines[0] == 0 ==> 0 <= r < |index.newlines|
  {
    CountBelow(index.newlines, offset + 1) - 1
  }

  function ToLineCol(index: Index, offset: nat): LineCol
    requires index.newlines != [] && index.newlines[0] == 0
  {
    var line := LineAt(index, offset);
    LineCol(line, offset - index.newlines[line])
  }

  function Offset(index: Index, lc: LineCol): nat
    requires lc.line < |index.newlines|
  {
    index.newlines[lc.line] + lc.col
  }

  function LineRange(index: Index, line: nat): (nat, nat)
    requires line < |index.newlines|
  {
    (index.newlines[line], if line + 1 < |index.newlines| then index.newlines[line + 1] else index.len)
  }

  /** What the loop over the characters of a line computes. */
  function To16(wide: seq<Utf16Char>, col: nat, res: int): int {
    if wide == [] || wide[0].end > col then res
    else To16(wide[1..], col, res - (wide[0].end - wide[0].start - LenUtf16(wide[0])))
  }

  function To8(wide: seq<Utf16Char>, col: int): int {
    if wide == [] || col <= wide[0].start then col
    else To8(wide[1..], col + (wide[0].end - wide[0].start - LenUtf16(wide[0])))
  }

  function WideAt(index: Index, line: nat): seq<Utf16Char> {
    if line in index.utf16Lines then index.utf16Lines[line] else []
  }

  method Utf8ToUtf16Col(index: Index, line: nat, col: nat) returns (res: int)
    ensures res == To16(WideAt(index, line), col, col)
  {
    res := col;
    if line in index.utf16Lines {
      var chars := index.utf16Lines[line];
      for i := 0 to |chars|
        invariant To16(chars, col, col) == To16(chars[i..], col, res)
      {
        var c := chars[i];
        assert chars[i..][1..] == chars[i + 1..];
        if c.end <= col {
          res := res - (c.end - c.start - LenUtf16(c));
        } else {
          break;
        }
      }
    }
  }

  method Utf16ToUtf8Col(index: Index, line: nat, col: nat) returns (res: int)
    ensures res == To8(WideAt(index, line), col)
  {
    res := col;
    if line in index.utf16Lines {
      var chars := index.utf16Lines[line];
      for i := 0 to |chars|
        invariant To8(chars, col) == To8(chars[i..], res)
      {
        var c := chars[i];
        assert chars[i..][1..] == chars[i + 1..];
        if res > c.start {
          res := res + (c.end - c.start - LenUtf16(c));
        } else {
          break;
        }
      }
    }
  }

  /** The non-empty ranges between consecutive cuts. */
  function Pieces(start: nat, cuts: seq<nat>, end: nat): seq<(nat, nat)>
    decreases |cuts|
  {
    if cuts == [] then if start < end then [(start, end)] else []
    else (if start < cuts[0] then [(start, cuts[0])] else []) + Pieces(cuts[0], cuts[1..], end)
  }

  /** A range, cut at the starts of lines. */
  function LinesIn(index: Index, start: nat, end: nat): seq<(nat, nat)>
    requires start <= end && Ascending(index.newlines)
  {
    var lo, hi := CountBelow(index.newlines, start), CountBelow(index.newlines, end + 1);
    Pieces(start, index.newlines[lo..hi], end)
  }
}
