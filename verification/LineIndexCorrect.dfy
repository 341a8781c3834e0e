/** The line index agrees with the text. */
module LineIndexCorrect {
  import opened LineIndex

  /** Number of newlines. */
  function Newlines(t: Text): nat {
    if t == [] then 0 else Newlines(t[..|t| - 1]) + if t[|t| - 1] == '\n' then 1 else 0
  }

  /** Line starts are ascending, and inside the text. */
  lemma {:induction false} StartsAscend(t: Text)
    ensures Ascending(Starts(t)) && Starts(t)[0] == 0 && Starts(t)[|Starts(t)| - 1] <= Bytes(t)
  {
    if t != [] {
      StartsAscend(t[..|t| - 1]);
    }
  }

  /** The lines that have started are as many as the newlines before, and the last of them is what follows the last newline. */
  lemma {:induction false} LastStart(t: Text)
    ensures |Lines(t)| == Newlines(t) + 1 && Starts(t)[|Starts(t)| - 1] + Bytes(LastLine(t)) == Bytes(t)
  {
    hide Wide;
    if t != [] {
      LastStart(t[..|t| - 1]);
      PushBytes(LastLine(t[..|t| - 1]), t[|t| - 1]);
    }
  }

  /** The last line is what follows the last newline, or everything. */
  lemma {:induction false} LastLineIs(t: Text) returns (before: Text)
    ensures t == before + LastLine(t) && '\n' !in LastLine(t)
    ensures before != [] ==> before[|before| - 1] == '\n'
  {
    hide Wide, Starts;
    if t == [] {
      before := [];
    } else {
      var t', c := t[..|t| - 1], t[|t| - 1];
      assert t == t' + [c];
      if c == '\n' {
        before := t;
      } else {
        before := LastLineIs(t');
      }
    }
  }

  /** Lines that start after position `i` start beyond its offset. */
  lemma {:induction false} StartsBeyond(t: Text, i: nat)
    requires i <= |t|
    ensures Starts(t[..i]) <= Starts(t) && Bytes(t[..i]) <= Bytes(t)
    ensures forall k :: |Starts(t[..i])| <= k < |Starts(t)| ==> Starts(t)[k] > Bytes(t[..i])
    decreases |t|
  {
    if i == |t| {
      assert t[..i] == t;
    } else {
      StartsBeyond(t[..|t| - 1], i);
      assert t[..|t| - 1][..i] == t[..i];
    }
  }

  lemma CountIs(s: seq<nat>, n: nat, k: nat)
    requires Ascending(s) && k <= |s| && (forall i :: 0 <= i < k ==> s[i] < n) && (k < |s| ==> s[k] >= n)
    ensures CountBelow(s, n) == k
  {
  }

  /** The line of an offset is the number of newlines before it, and its column is the length of the text since the last of them. */
  lemma LineColCounts(t: Text, i: nat)
    requires i <= |t|
    ensures Starts(t)[0] == 0 && ToLineCol(IndexOf(t), Bytes(t[..i])) == LineCol(Newlines(t[..i]), Bytes(LastLine(t[..i])))
  {
    hide Wide, WideLines, Bytes, Starts, CountBelow, Lines, Newlines, LastLine;
    StartsAscend(t);
    LastStart(t[..i]);
    LineOf(t, i);
  }

  /** The lines that start at or before position `i` are those that have started there. */
  lemma LineOf(t: Text, i: nat)
    requires i <= |t|
    ensures CountBelow(Starts(t), Bytes(t[..i]) + 1) == |Starts(t[..i])|
    ensures |Starts(t[..i])| <= |Starts(t)| && Starts(t)[|Starts(t[..i])| - 1] == Starts(t[..i])[|Starts(t[..i])| - 1]
  {
    hide Wide, Bytes, Starts, CountBelow, Lines;
    var before := t[..i];
    StartsAscend(t);
    StartsAscend(before);
    StartsBeyond(t, i);
    var n := |Starts(before)|;
    forall k | 0 <= k < n ensures Starts(t)[k] <= Bytes(before) {
      assert Starts(before)[k] <= Starts(before)[n - 1];
    }
    CountIs(Starts(t), Bytes(before) + 1, n);
  }

  /** Line and column lead back to the offset. */
  lemma OffsetBack(t: Text, offset: nat)
    ensures Starts(t)[0] == 0
    ensures var lc := ToLineCol(IndexOf(t), offset);
      && lc.line < |Starts(t)| && Offset(IndexOf(t), lc) == offset && Starts(t)[lc.line] <= offset
      && (lc.line + 1 < |Starts(t)| ==> offset < Starts(t)[lc.line + 1])
  {
    hide Wide, WideLines, Bytes, Starts;
    StartsAscend(t);
  }

  /** A column inside its line is found again from the offset. */
  lemma LineColBack(t: Text, lc: LineCol)
    requires lc.line < |Starts(t)| && (lc.line + 1 < |Starts(t)| ==> Starts(t)[lc.line] + lc.col < Starts(t)[lc.line + 1])
    ensures Starts(t)[0] == 0 && ToLineCol(IndexOf(t), Offset(IndexOf(t), lc)) == lc
  {
    hide Wide, WideLines, Bytes, Starts;
    StartsAscend(t);
    CountIs(Starts(t), Starts(t)[lc.line] + lc.col + 1, lc.line + 1);
  }

  /** The range of a line holds the offsets of that line, and the ranges of the lines follow each other up to the end of the text. */
  lemma LineRanges(t: Text, line: nat)
    requires line < |Starts(t)|
    ensures Starts(t)[0] == 0
    ensures var (lo, hi) := LineRange(IndexOf(t), line);
      && lo <= hi && (if line + 1 < |Starts(t)| then hi == LineRange(IndexOf(t), line + 1).0 else hi == Bytes(t))
      && forall offset: nat :: lo <= offset < hi ==> ToLineCol(IndexOf(t), offset).line == line
  {
    hide Wide, WideLines, Bytes, Starts;
    StartsAscend(t);
    var (lo, hi) := LineRange(IndexOf(t), line);
    forall offset: nat | lo <= offset < hi ensures ToLineCol(IndexOf(t), offset).line == line {
      CountIs(Starts(t), offset + 1, line + 1);
    }
  }

  // ---------------------------------------------------------------- columns

  /** Characters outside ASCII, counted from `base`. */
  function WideFrom(line: Text, base: nat): seq<Utf16Char> {
    if line == [] then []
    else (if Len8(line[0]) > 1 then [Utf16Char(base, base + Len8(line[0]))] else []) + WideFrom(line[1..], base + Len8(line[0]))
  }

  lemma {:induction false} WideFromPush(line: Text, c: char, base: nat)
    ensures WideFrom(line + [c], base) == WideFrom(line, base) + if Len8(c) > 1 then [Utf16Char(base + Bytes(line), base + Bytes(line) + Len8(c))] else []
    decreases |line|
  {
    if line != [] {
      assert (line + [c])[1..] == line[1..] + [c];
      WideFromPush(line[1..], c, base + Len8(line[0]));
      BytesFront(line);
    } else {
      assert [] + [c] == [c];
    }
  }

  lemma {:induction false} BytesFront(t: Text)
    requires t != []
    ensures Bytes(t) == Len8(t[0]) + Bytes(t[1..]) && Units(t) == Len16(t[0]) + Units(t[1..])
    ensures Units(t) > 0
    decreases |t|
  {
    if |t| > 1 {
      BytesFront(t[..|t| - 1]);
      assert t[..|t| - 1][1..] == t[1..][..|t[1..]| - 1];
    }
  }

  lemma {:induction false} WideIsFrom(line: Text)
    ensures Wide(line) == WideFrom(line, 0)
  {
    if line != [] {
      var before, c := line[..|line| - 1], line[|line| - 1];
      WideIsFrom(before);
      WideFromPush(before, c, 0);
      assert line == before + [c];
    }
  }

  lemma {:induction false} NoWideBefore(line: Text, base: nat)
    ensures WideFrom(line, base) != [] ==> WideFrom(line, base)[0].start >= base && WideFrom(line, base)[0].end > base
    decreases |line|
  {
    if line != [] { NoWideBefore(line[1..], base + Len8(line[0])); }
  }

  lemma WideFromFront(line: Text, base: nat)
    requires line != []
    ensures var w, rest := WideFrom(line, base), WideFrom(line[1..], base + Len8(line[0]));
      if Len8(line[0]) > 1 then w != [] && w[0] == Utf16Char(base, base + Len8(line[0])) && w[1..] == rest else w == rest
  {
  }

  /** At the end of a prefix of a line, the column in UTF-16 is the length of the prefix. */
  lemma {:induction false} PrefixTo16(p: Text, line: Text, base: nat, res: int)
    requires p <= line
    ensures To16(WideFrom(line, base), base + Bytes(p), res) == res - (Bytes(p) - Units(p))
    decreases |line|
  {
    hide Bytes, Units;
    if p == [] {
      NoWideBefore(line, base);
      NoBytes();
    } else {
      BytesFront(p);
      PrefixTo16(p[1..], line[1..], base + Len8(line[0]), if Len8(line[0]) > 1 then res - (Len8(line[0]) - Len16(line[0])) else res);
      WideFromFront(line, base);
    }
  }

  lemma {:induction false} PrefixTo8(p: Text, line: Text, base: nat)
    requires p <= line
    ensures To8(WideFrom(line, base), base + Units(p)) == base + Bytes(p)
    decreases |line|
  {
    hide Bytes, Units;
    if p == [] {
      NoWideBefore(line, base);
      NoBytes();
    } else {
      BytesFront(p);
      PrefixTo8(p[1..], line[1..], base + Len8(line[0]));
      WideFromFront(line, base);
    }
  }

  lemma NoBytes()
    ensures Bytes([]) == 0 && Units([]) == 0
  {
  }

  lemma LastOfLines(t: Text)
    ensures LastLine(t) == Lines(t)[|Lines(t)| - 1]
  {
  }

  /** One more character makes a line longer, or none. */
  lemma LinesGrow(t: Text, k: nat)
    requires t != [] && k < |Lines(t[..|t| - 1])|
    ensures k < |Lines(t)| && Lines(t[..|t| - 1])[k] <= Lines(t)[k]
  {
  }

  /** The line that a position is in begins with the text since the last newline. */
  lemma {:induction false} LinePrefix(t: Text, i: nat)
    requires i <= |t|
    ensures Newlines(t[..i]) < |Lines(t)| && LastLine(t[..i]) <= Lines(t)[Newlines(t[..i])]
    decreases |t|
  {
    hide Wide, Starts, Bytes, Newlines, LastLine;
    LastStart(t[..i]);
    if i == |t| {
      assert t[..i] == t;
      LastStart(t);
      LastOfLines(t);
    } else {
      LinePrefix(t[..|t| - 1], i);
      assert t[..|t| - 1][..i] == t[..i];
      LinesGrow(t, Newlines(t[..i]));
    }
  }

  /** At every position, the UTF-16 column counts the UTF-16 units since the last newline, and it leads back to the UTF-8 column. */
  lemma ColumnsBack(t: Text, i: nat)
    requires i <= |t|
    ensures var (line, p) := (Newlines(t[..i]), LastLine(t[..i]));
      && To16(WideAt(IndexOf(t), line), Bytes(p), Bytes(p)) == Units(p)
      && To8(WideAt(IndexOf(t), line), Units(p)) == Bytes(p)
  {
    hide Bytes, Units, Starts, Lines, Newlines, To16, To8, Wide;
    var line, p := Newlines(t[..i]), LastLine(t[..i]);
    LinePrefix(t, i);
    WideIsFrom(Lines(t)[line]);
    PrefixTo16(p, Lines(t)[line], 0, Bytes(p));
    PrefixTo8(p, Lines(t)[line], 0);
  }

  // ---------------------------------------------------------------- ranges

  /** Non-empty ranges that follow each other from `start` to `end`. */
  predicate Chain(pieces: seq<(nat, nat)>, start: nat, end: nat)
    decreases |pieces|
  {
    if pieces == [] then start == end
    else pieces[0].0 == start && start < pieces[0].1 && Chain(pieces[1..], pieces[0].1, end)
  }

  /** No line starts strictly inside a range. */
  predicate InOneLine(newlines: seq<nat>, piece: (nat, nat)) {
    forall k :: 0 <= k < |newlines| ==> newlines[k] <= piece.0 || piece.1 <= newlines[k]
  }

  /** The cuts between the start and the end of a range split it. */
  lemma {:induction false} PiecesChain(newlines: seq<nat>, lo: nat, hi: nat, start: nat, end: nat)
    requires Ascending(newlines) && lo <= hi <= |newlines| && start <= end
    requires forall k :: 0 <= k < lo ==> newlines[k] <= start
    requires forall k :: lo <= k < hi ==> start <= newlines[k] <= end
    requires forall k :: hi <= k < |newlines| ==> end < newlines[k]
    ensures var r := Pieces(start, newlines[lo..hi], end);
      Chain(r, start, end) && forall i :: 0 <= i < |r| ==> InOneLine(newlines, r[i])
    decreases hi - lo
  {
    hide InOneLine;
    if lo < hi {
      assert newlines[lo..hi][1..] == newlines[lo + 1..hi] && newlines[lo..hi][0] == newlines[lo];
      PiecesChain(newlines, lo + 1, hi, newlines[lo], end);
      var rest := Pieces(newlines[lo], newlines[lo + 1..hi], end);
      OnePiece(newlines, lo, start, newlines[lo]);
      if start < newlines[lo] {
        assert ([(start, newlines[lo])] + rest)[1..] == rest;
      } else {
        assert Pieces(start, newlines[lo..hi], end) == rest;
      }
    } else {
      assert newlines[lo..hi] == [];
      OnePiece(newlines, lo, start, end);
    }
  }

  lemma OnePiece(newlines: seq<nat>, lo: nat, start: nat, end: nat)
    requires Ascending(newlines) && lo <= |newlines| && (forall k :: 0 <= k < lo ==> newlines[k] <= start)
    requires (lo < |newlines| ==> end <= newlines[lo])
    ensures InOneLine(newlines, (start, end))
  {
  }

  /** A range is split into non-empty pieces that follow each other, each inside one line. */
  lemma RangeSplit(t: Text, start: nat, end: nat)
    requires start <= end
    ensures Ascending(Starts(t))
    ensures var r := LinesIn(IndexOf(t), start, end);
      Chain(r, start, end) && forall i :: 0 <= i < |r| ==> InOneLine(Starts(t), r[i])
  {
    hide Bytes, Wide, Starts, WideLines, CountBelow, Pieces, Chain, InOneLine;
    StartsAscend(t);
    var lo, hi := CountBelow(Starts(t), start), CountBelow(Starts(t), end + 1);
    Counted(Starts(t), start, end);
    PiecesChain(Starts(t), lo, hi, start, end);
  }

  /** What is below the start, and what is beyond the end of a range. */
  lemma Counted(s: seq<nat>, start: nat, end: nat)
    requires Ascending(s) && start <= end
    ensures var (lo, hi) := (CountBelow(s, start), CountBelow(s, end + 1));
      lo <= hi && (forall k :: lo <= k < hi ==> start <= s[k] <= end) && forall k :: hi <= k < |s| ==> end < s[k]
  {
    hide CountBelow;
    var lo, hi := CountBelow(s, start), CountBelow(s, end + 1);
    forall k | lo <= k < |s| ensures start <= s[k] { assert s[lo] <= s[k]; }
    forall k | hi <= k < |s| ensures end < s[k] { assert s[hi] <= s[k]; }
  }
}
