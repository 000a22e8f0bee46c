/** The reader's pipeline around the per-line filter: every line of the file
    is filtered and collected into a vector of strings, and that vector is
    flattened into the program's characters. */
module Pipeline {
  import opened Filter

  /** `lines.map(|s| { s.retain(..); s }).collect::<Vec<String>>()`: one
      filtered entry per line, in line order; a line left empty keeps its
      entry. */
  function FilterLines(lines: seq<seq<char>>): (v: seq<seq<char>>)
    ensures |v| == |lines|
    ensures forall i :: 0 <= i < |v| ==> v[i] == FilterLine(lines[i])
  {
    if lines == [] then [] else [FilterLine(lines[0])] + FilterLines(lines[1..])
  }

  /** `flat_map(|s| s.chars())`: the strings' characters, one string after
      the other. */
  function Flatten(ls: seq<seq<char>>): seq<char> {
    if ls == [] then [] else ls[0] + Flatten(ls[1..])
  }

  /** The program vector: the filtered lines joined with no separator. */
  function Program(lines: seq<seq<char>>): (p: seq<char>)
    ensures forall i :: 0 <= i < |p| ==> IsBfChar(p[i])
  {
    ProgramFiltersJoinedLines(lines);
    Flatten(FilterLines(lines))
  }

  /** Number of alphabet symbols over all lines, line by line. */
  function TotalCount(lines: seq<seq<char>>): nat {
    if lines == [] then 0 else CountBf(lines[0]) + TotalCount(lines[1..])
  }

  /** The file's text as the lines were read from it: each line followed by
      the terminator that `lines()` stripped from it (`"\n"`, `"\r\n"`, or
      nothing after a last line without one). */
  function Text(lines: seq<seq<char>>, terminators: seq<seq<char>>): seq<char>
    requires |terminators| == |lines|
  {
    if lines == [] then [] else lines[0] + terminators[0] + Text(lines[1..], terminators[1..])
  }

  // ---------------------------------------------------------------------

  /** Flattening one string gives that string back. */
  lemma FlattenSingle(s: seq<char>)
    ensures Flatten([s]) == s
  {
    assert [s][1..] == [];
  }

  /** Flattening a concatenation of vectors concatenates their flattenings;
      with `FlattenSingle` this says the characters come string by string,
      in vector order. */
  lemma {:induction false} FlattenAppend(xs: seq<seq<char>>, ys: seq<seq<char>>)
    ensures Flatten(xs + ys) == Flatten(xs) + Flatten(ys)
  {
    if xs == [] {
      assert xs + ys == ys;
    } else {
      assert (xs + ys)[0] == xs[0] && (xs + ys)[1..] == xs[1..] + ys;
      FlattenAppend(xs[1..], ys);
    }
  }

  /** The program is the filter applied to all lines joined together. */
  lemma {:induction false} ProgramFiltersJoinedLines(lines: seq<seq<char>>)
    ensures Flatten(FilterLines(lines)) == FilterLine(Flatten(lines))
  {
    if lines != [] {
      ProgramFiltersJoinedLines(lines[1..]);
      FilterAppend(lines[0], Flatten(lines[1..]));
    }
  }

  /** Line terminators hold no symbol, so they vanish: the program is the
      filter applied to the file's whole text. */
  lemma {:induction false} ProgramIsFilteredText(lines: seq<seq<char>>, terminators: seq<seq<char>>)
    requires |terminators| == |lines|
    requires forall i, j :: 0 <= i < |terminators| && 0 <= j < |terminators[i]| ==> !IsBfChar(terminators[i][j])
    ensures Program(lines) == FilterLine(Text(lines, terminators))
  {
    if lines != [] {
      var rest := Text(lines[1..], terminators[1..]);
      ProgramIsFilteredText(lines[1..], terminators[1..]);
      FilterAppend(lines[0] + terminators[0], rest);
      FilterAppend(lines[0], terminators[0]);
      FilterEmpty(terminators[0]);
    }
  }

  /** A single line's program is that line filtered. */
  lemma ProgramSingleLine(line: seq<char>)
    ensures Program([line]) == FilterLine(line)
  {
    var v := FilterLines([line]);
    assert v == [FilterLine(line)];
    FlattenSingle(FilterLine(line));
  }

  /** The program of a file split anywhere is the two parts' programs in
      order. */
  lemma {:induction false} ProgramAppend(xs: seq<seq<char>>, ys: seq<seq<char>>)
    ensures Program(xs + ys) == Program(xs) + Program(ys)
  {
    ProgramFiltersJoinedLines(xs + ys);
    ProgramFiltersJoinedLines(xs);
    ProgramFiltersJoinedLines(ys);
    FlattenAppend(xs, ys);
    FilterAppend(Flatten(xs), Flatten(ys));
  }

  /** The program's length is the sum of the lines' symbol counts; an empty
      list of lines gives an empty program. */
  lemma {:induction false} ProgramLength(lines: seq<seq<char>>)
    ensures |Program(lines)| == TotalCount(lines)
    ensures lines == [] ==> Program(lines) == []
  {
    if lines != [] {
      ProgramLength(lines[1..]);
      FilterLength(lines[0]);
      assert lines == [lines[0]] + lines[1..];
      ProgramAppend([lines[0]], lines[1..]);
      ProgramSingleLine(lines[0]);
    }
  }

  /** A line with no symbol keeps an empty entry in the collected vector and
      adds nothing to the program. */
  lemma SymbolFreeLine(before: seq<seq<char>>, line: seq<char>, after: seq<seq<char>>)
    requires forall i :: 0 <= i < |line| ==> !IsBfChar(line[i])
    ensures FilterLines(before + [line] + after)[|before|] == []
    ensures Program(before + [line] + after) == Program(before + after)
  {
    FilterEmpty(line);
    ProgramAppend(before + [line], after);
    ProgramAppend(before, [line]);
    ProgramAppend(before, after);
    ProgramSingleLine(line);
  }
}
