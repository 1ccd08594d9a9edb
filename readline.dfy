/** The byte-at-a-time line read of File::read_line, as a specification over the buffer of a
    MemFile. The loop keeps the last byte it read in `c`; a read at the end of the data
    copies nothing, so `c` then keeps its previous value. */
module Lines {
  import opened MemFiles

  const NL: Byte := 10
  const CR: Byte := 13

  /** A byte the line read stores: anything but carriage return and line feed. */
  predicate Kept(b: Byte)
  {
    b != CR && b != NL
  }

  /** The bytes of `s` that the line read stores, in order. */
  function Strip(s: seq<Byte>): (r: seq<Byte>)
    ensures |r| <= |s|
    ensures forall i :: 0 <= i < |r| ==> Kept(r[i])
  {
    if s == [] then [] else (if Kept(s[0]) then [s[0]] else []) + Strip(s[1..])
  }

  /** `n` copies of `b`. */
  function Repeat(b: Byte, n: nat): (r: seq<Byte>)
    ensures |r| == n && forall i :: 0 <= i < n ==> r[i] == b
  {
    seq(n, _ => b)
  }

  /** The loop state when the line read stops: the stored bytes, the cursor and the last
      byte held in `c`. */
  datatype Scan = Scan(stored: seq<Byte>, pos: int, last: Byte)

  /** The remaining `count` iterations of the loop, from cursor `pos` with `c` holding the last
      byte read and `stored` the bytes stored so far. */
  function ScanLine(data: seq<Byte>, pos: int, c: Byte, count: nat, stored: seq<Byte>): (r: Scan)
    requires 0 <= pos <= |data|
    ensures pos <= r.pos <= |data|
    decreases count
  {
    if count == 0 || c == NL then Scan(stored, pos, c)
    else
      var c' := if pos < |data| then data[pos] else c;
      var pos' := if pos < |data| then pos + 1 else pos;
      ScanLine(data, pos', c', count - 1, if Kept(c') then stored + [c'] else stored)
  }

  /** What read_line leaves behind: the stored characters (their number is the return value)
      and the index at which it writes the terminating zero. */
  datatype Line = Line(chars: seq<Byte>, terminator: nat)

  function LineOf(data: seq<Byte>, pos: int, count: nat): (line: Line)
    requires 0 <= pos <= |data|
    ensures line.chars == ScanLine(data, pos, 0, count, []).stored
    ensures line.terminator == |line.chars| || line.terminator == |line.chars| + 1
  {
    var s := ScanLine(data, pos, 0, count, []);
    Line(s.stored, if s.last != NL then |s.stored| + 1 else |s.stored|)
  }

  /** The loop performs at most `count` one-byte reads, never moves the cursor past the end,
      only appends bytes other than CR and LF, and stops right after consuming a line feed. */
  lemma {:induction false} ScanBounds(data: seq<Byte>, pos: int, c: Byte, count: nat, stored: seq<Byte>)
    requires 0 <= pos <= |data|
    ensures var r := ScanLine(data, pos, c, count, stored);
      && pos <= r.pos <= |data|
      && r.pos - pos <= count
      && |stored| <= |r.stored| <= |stored| + count
      && r.stored[..|stored|] == stored
      && (forall i :: |stored| <= i < |r.stored| ==> Kept(r.stored[i]))
      && (forall i :: pos <= i < r.pos - 1 ==> data[i] != NL)
    decreases count
  {
    if count > 0 && c != NL {
      var c' := if pos < |data| then data[pos] else c;
      var pos' := if pos < |data| then pos + 1 else pos;
      var stored' := if Kept(c') then stored + [c'] else stored;
      ScanBounds(data, pos', c', count - 1, stored');
      var r := ScanLine(data, pos', c', count - 1, stored');
      assert r.stored[..|stored'|] == stored';
      assert r.stored[..|stored|] == stored'[..|stored|];
      if pos < |data| && r.pos > pos' {
        assert c' != NL;
      }
    }
  }

  /** The loop ends holding a line feed exactly when the last byte it consumed was one. */
  lemma {:induction false} ScanLast(data: seq<Byte>, pos: int, c: Byte, count: nat, stored: seq<Byte>)
    requires 0 <= pos <= |data|
    requires c != NL
    ensures var r := ScanLine(data, pos, c, count, stored);
      r.last == NL <==> (r.pos > pos && data[r.pos - 1] == NL)
    decreases count
  {
    ScanBounds(data, pos, c, count, stored);
    if count > 0 {
      var c' := if pos < |data| then data[pos] else c;
      var pos' := if pos < |data| then pos + 1 else pos;
      var stored' := if Kept(c') then stored + [c'] else stored;
      if c' != NL {
        ScanLast(data, pos', c', count - 1, stored');
      }
    }
  }

  /** When a line feed lies among the next `count` bytes, the loop stores the bytes before it
      without their carriage returns and leaves the cursor just after it. */
  lemma {:induction false} ScanFindsNewline(data: seq<Byte>, pos: int, c: Byte, count: nat, stored: seq<Byte>, k: nat)
    requires 0 <= pos && pos + k < |data|
    requires c != NL && k < count
    requires data[pos + k] == NL
    requires forall i :: pos <= i < pos + k ==> data[i] != NL
    ensures ScanLine(data, pos, c, count, stored) == Scan(stored + Strip(data[pos..pos + k]), pos + k + 1, NL)
    decreases k
  {
    var c' := data[pos];
    var stored' := if Kept(c') then stored + [c'] else stored;
    if k == 0 {
      assert data[pos..pos] == [];
    } else {
      ScanFindsNewline(data, pos + 1, c', count - 1, stored', k - 1);
      assert data[pos..pos + k][1..] == data[pos + 1..pos + k];
    }
  }

  /** When none of the next `count` bytes is a line feed, the loop stores them all but the
      carriage returns and advances the cursor by `count`. */
  lemma {:induction false} ScanFillsCount(data: seq<Byte>, pos: int, c: Byte, count: nat, stored: seq<Byte>)
    requires 0 <= pos && pos + count <= |data|
    requires c != NL
    requires forall i :: pos <= i < pos + count ==> data[i] != NL
    ensures var r := ScanLine(data, pos, c, count, stored);
      r.stored == stored + Strip(data[pos..pos + count]) && r.pos == pos + count
    decreases count
  {
    if count == 0 {
      assert data[pos..pos] == [];
    } else {
      var c' := data[pos];
      var stored' := if Kept(c') then stored + [c'] else stored;
      ScanFillsCount(data, pos + 1, c', count - 1, stored');
      assert data[pos..pos + count][1..] == data[pos + 1..pos + count];
    }
  }

  /** At the end of the data every remaining iteration re-stores the byte held in `c`
      (nothing when it is a carriage return), and the cursor stays put. */
  lemma {:induction false} ScanAtEnd(data: seq<Byte>, c: Byte, count: nat, stored: seq<Byte>)
    requires c != NL
    ensures var r := ScanLine(data, |data|, c, count, stored);
      && r.pos == |data| && r.last == c
      && r.stored == stored + (if c == CR then [] else Repeat(c, count))
    decreases count
  {
    if count > 0 {
      var stored' := if Kept(c) then stored + [c] else stored;
      ScanAtEnd(data, c, count - 1, stored');
      if c != CR {
        assert stored' + Repeat(c, count - 1) == stored + Repeat(c, count);
      }
    }
  }

  /** Over `m` bytes free of line feeds the loop stores them minus CR and LF, then goes on
      from the byte after them holding the last of them. */
  lemma {:induction false} ScanPrefix(data: seq<Byte>, pos: int, c: Byte, count: nat, stored: seq<Byte>, m: nat)
    requires 0 <= pos && pos + m <= |data|
    requires 0 < m <= count && c != NL
    requires forall i :: pos <= i < pos + m ==> data[i] != NL
    ensures ScanLine(data, pos, c, count, stored)
         == ScanLine(data, pos + m, data[pos + m - 1], count - m, stored + Strip(data[pos..pos + m]))
    decreases m
  {
    var c' := data[pos];
    var stored' := if Kept(c') then stored + [c'] else stored;
    assert ScanLine(data, pos, c, count, stored) == ScanLine(data, pos + 1, c', count - 1, stored');
    if m == 1 {
      assert data[pos..pos + 1] == [c'];
      assert [c'][1..] == [];
      assert Strip([c']) == (if Kept(c') then [c'] else []);
      assert stored' == stored + Strip(data[pos..pos + 1]);
    } else {
      ScanPrefix(data, pos + 1, c', count - 1, stored', m - 1);
      assert data[pos..pos + m][1..] == data[pos + 1..pos + m];
      assert Strip(data[pos..pos + m]) == (if Kept(c') then [c'] else []) + Strip(data[pos + 1..pos + m]);
      assert stored' + Strip(data[pos + 1..pos + m]) == stored + Strip(data[pos..pos + m]);
    }
  }

  /** The last line of data without a trailing line feed, read with room to spare: the loop
      stores the rest of the data minus CR, then re-stores its last byte once for every
      iteration left over (nothing when that byte is CR), and stops at the end of the data. */
  lemma RunsOutOfData(data: seq<Byte>, pos: int, count: nat)
    requires 0 <= pos < |data| < pos + count
    requires forall i :: pos <= i < |data| ==> data[i] != NL
    ensures var last := data[|data| - 1];
      ScanLine(data, pos, 0, count, [])
      == Scan(Strip(data[pos..]) + (if last == CR then [] else Repeat(last, count - (|data| - pos))), |data|, last)
  {
    var m := |data| - pos;
    var last := data[|data| - 1];
    var kept := Strip(data[pos..]);
    assert data[pos..pos + m] == data[pos..];
    assert [] + kept == kept;
    ScanPrefix(data, pos, 0, count, [], m);
    assert ScanLine(data, pos, 0, count, []) == ScanLine(data, |data|, last, count - m, kept);
    ScanAtEnd(data, last, count - m, kept);
  }

  /** read_line stores at most `count` characters, none of them CR or LF, and writes its
      terminator at index `|chars|` exactly when the last byte it consumed was a line feed,
      one slot further otherwise. */
  lemma LineOfShape(data: seq<Byte>, pos: int, count: nat)
    requires 0 <= pos <= |data|
    ensures var line := LineOf(data, pos, count);
      var r := ScanLine(data, pos, 0, count, []);
      && |line.chars| <= count
      && (forall i :: 0 <= i < |line.chars| ==> Kept(line.chars[i]))
      && (line.terminator == |line.chars| <==> r.pos > pos && data[r.pos - 1] == NL)
      && (line.terminator != |line.chars| ==> line.terminator == |line.chars| + 1)
  {
    ScanBounds(data, pos, 0, count, []);
    ScanLast(data, pos, 0, count, []);
  }

  /** Reading "abc\r\ndef" with room for ten characters yields "abc", terminated at index 3,
      and leaves the cursor on the "d". */
  lemma CrLfExample()
    ensures var data: seq<Byte> := [97, 98, 99, 13, 10, 100, 101, 102];
      && LineOf(data, 0, 10) == Line([97, 98, 99], 3)
      && ScanLine(data, 0, 0, 10, []).pos == 5
  {
    var data: seq<Byte> := [97, 98, 99, 13, 10, 100, 101, 102];
    ScanFindsNewline(data, 0, 0, 10, [], 4);
    assert data[0..4] == [97, 98, 99, 13];
    assert Strip([13]) == [];
    assert Strip([99, 13]) == [99];
    assert Strip([98, 99, 13]) == [98, 99];
    assert Strip([97, 98, 99, 13]) == [97, 98, 99];
  }

  /** Past the end of the data the last byte is repeated: reading "ab" with room for four
      characters yields "abbb", terminated at index 5. */
  lemma RepeatsLastByteExample()
    ensures LineOf([97, 98], 0, 4) == Line([97, 98, 98, 98], 5)
  {
    var data: seq<Byte> := [97, 98];
    ScanAtEnd(data, 98, 2, [97, 98]);
  }
}
