/** The per-line character filter of the Brainfuck reader: the eight-symbol
    alphabet, the filter as a function on a line, and the in-place `retain`
    on an owned string buffer, proved to compute that function. */
module Filter {

  /** The symbols the reader keeps, in the order the source lists them. */
  const BfChars: seq<char> := ['+', '-', '<', '>', '.', ',', '[', ']']

  /** `bf_chars.contains(&c)`: `c` is one of the eight instruction symbols. */
  predicate IsBfChar(c: char)
    ensures IsBfChar(c) <==>
      c == '+' || c == '-' || c == '<' || c == '>' || c == '.' || c == ',' || c == '[' || c == ']'
  {
    c in BfChars
  }

  /** The line with every character outside the alphabet removed and the
      others left in their original order. */
  function FilterLine(s: seq<char>): (r: seq<char>)
    ensures |r| <= |s|
    ensures forall i :: 0 <= i < |r| ==> IsBfChar(r[i])
  {
    if s == [] then []
    else if IsBfChar(s[0]) then [s[0]] + FilterLine(s[1..])
    else FilterLine(s[1..])
  }

  /** Number of occurrences in `s` of the alphabet's symbols, counted symbol
      by symbol on the multiset of `s`. */
  function CountBf(s: seq<char>): nat {
    var m := multiset(s);
    m['+'] + m['-'] + m['<'] + m['>'] + m['.'] + m[','] + m['['] + m[']']
  }

  /** `r` can be obtained from `s` by deleting characters. */
  predicate IsSubseq(r: seq<char>, s: seq<char>)
    decreases |s|
  {
    if r == [] then true
    else if s == [] then false
    else (r[0] == s[0] && IsSubseq(r[1..], s[1..])) || IsSubseq(r, s[1..])
  }

  // ---------------------------------------------------------------------
  // The filter, line by line

  /** Filtering a concatenation filters each part. */
  lemma {:induction false} FilterAppend(a: seq<char>, b: seq<char>)
    ensures FilterLine(a + b) == FilterLine(a) + FilterLine(b)
  {
    if a == [] {
      assert a + b == b;
    } else {
      var ab := a + b;
      assert ab != [] && ab[0] == a[0] && ab[1..] == a[1..] + b;
      FilterAppend(a[1..], b);
      if IsBfChar(a[0]) {
        calc {
          FilterLine(ab);
          [a[0]] + FilterLine(a[1..] + b);
          [a[0]] + (FilterLine(a[1..]) + FilterLine(b));
          ([a[0]] + FilterLine(a[1..])) + FilterLine(b);
        }
      }
    }
  }

  /** A character survives exactly when it is in the alphabet, and then every
      one of its occurrences survives. */
  lemma {:induction false} FilterKeepsIff(s: seq<char>, c: char)
    ensures multiset(FilterLine(s))[c] == if IsBfChar(c) then multiset(s)[c] else 0
  {
    if s != [] {
      assert s == [s[0]] + s[1..];
      FilterKeepsIff(s[1..], c);
    }
  }

  /** The filtered line is as long as the number of alphabet symbols in it. */
  lemma {:induction false} FilterLength(s: seq<char>)
    ensures |FilterLine(s)| == CountBf(s)
  {
    if s != [] {
      assert s == [s[0]] + s[1..];
      FilterLength(s[1..]);
    }
  }

  /** The filter keeps the relative order of what it keeps. */
  lemma {:induction false} FilterIsSubseq(s: seq<char>)
    ensures IsSubseq(FilterLine(s), s)
  {
    if s != [] {
      FilterIsSubseq(s[1..]);
      var r := FilterLine(s);
      if IsBfChar(s[0]) {
        assert r[0] == s[0] && r[1..] == FilterLine(s[1..]);
      } else if r != [] {
        assert IsSubseq(r, s[1..]);
      }
    }
  }

  /** A line is left unchanged exactly when all its characters are symbols. */
  lemma {:induction false} FilterFixpoint(s: seq<char>)
    ensures FilterLine(s) == s <==> forall i :: 0 <= i < |s| ==> IsBfChar(s[i])
  {
    if s != [] {
      FilterFixpoint(s[1..]);
      if !IsBfChar(s[0]) {
        assert |FilterLine(s)| < |s|;
      }
    }
  }

  /** Filtering an already filtered line changes nothing. */
  lemma {:induction false} FilterIdempotent(s: seq<char>)
    ensures FilterLine(FilterLine(s)) == FilterLine(s)
  {
    FilterFixpoint(FilterLine(s));
  }

  /** A line becomes empty exactly when it holds no symbol. */
  lemma {:induction false} FilterEmpty(s: seq<char>)
    ensures FilterLine(s) == [] <==> forall i :: 0 <= i < |s| ==> !IsBfChar(s[i])
  {
    if s != [] {
      FilterEmpty(s[1..]);
      assert forall i :: 1 <= i < |s| ==> s[i] == s[1..][i - 1];
    }
  }

  // ---------------------------------------------------------------------
  // The filter is the longest subsequence made of symbols only

  lemma {:induction false} SubseqLength(r: seq<char>, s: seq<char>)
    requires IsSubseq(r, s)
    ensures |r| <= |s|
    decreases |s|
  {
    if r != [] {
      if r[0] == s[0] && IsSubseq(r[1..], s[1..]) {
        SubseqLength(r[1..], s[1..]);
      } else {
        SubseqLength(r, s[1..]);
      }
    }
  }

  lemma {:induction false} SubseqSameLength(r: seq<char>, s: seq<char>)
    requires IsSubseq(r, s) && |r| == |s|
    ensures r == s
    decreases |s|
  {
    if r != [] {
      if r[0] == s[0] && IsSubseq(r[1..], s[1..]) {
        SubseqSameLength(r[1..], s[1..]);
        assert r == [r[0]] + r[1..] && s == [s[0]] + s[1..];
      } else {
        SubseqLength(r, s[1..]);
        assert false;
      }
    }
  }

  /** Every symbols-only subsequence of a line is a subsequence of its
      filtered form. */
  lemma {:induction false} SymbolSubseqOfFilter(r: seq<char>, s: seq<char>)
    requires IsSubseq(r, s)
    requires forall i :: 0 <= i < |r| ==> IsBfChar(r[i])
    ensures IsSubseq(r, FilterLine(s))
    decreases |s|
  {
    if r != [] {
      var f, f' := FilterLine(s), FilterLine(s[1..]);
      if r[0] == s[0] && IsSubseq(r[1..], s[1..]) {
        SymbolSubseqOfFilter(r[1..], s[1..]);
        assert f[0] == r[0] && f[1..] == f';
      } else {
        SymbolSubseqOfFilter(r, s[1..]);
        if IsBfChar(s[0]) {
          assert f[1..] == f';
        }
      }
    }
  }

  /** The filtered line is the unique longest subsequence of the line that
      holds symbols only: no such subsequence is longer, and one as long is
      the filtered line itself. */
  lemma {:induction false} FilterIsLongestSymbolSubseq(r: seq<char>, s: seq<char>)
    requires IsSubseq(r, s)
    requires forall i :: 0 <= i < |r| ==> IsBfChar(r[i])
    ensures |r| <= |FilterLine(s)|
    ensures |r| == |FilterLine(s)| ==> r == FilterLine(s)
  {
    SymbolSubseqOfFilter(r, s);
    SubseqLength(r, FilterLine(s));
    if |r| == |FilterLine(s)| {
      SubseqSameLength(r, FilterLine(s));
    }
  }

  // ---------------------------------------------------------------------
  // `String::retain` on an owned line

  /** An owned line: a character buffer of which the first `len` cells are
      the string. */
  class LineBuffer {
    var chars: array<char>
    var len: nat

    ghost predicate Valid()
      reads this
    {
      len <= chars.Length
    }

    /** The string the buffer holds. */
    ghost function Contents(): seq<char>
      reads this, chars
      requires Valid()
    {
      chars[..len]
    }

    constructor (s: seq<char>)
      ensures Valid() && fresh(chars)
      ensures Contents() == s
    {
      chars := new char[|s|](i requires 0 <= i < |s| => s[i]);
      len := |s|;
    }

    /** `s.retain(|c| bf_chars.contains(&c))`: one left-to-right pass that
        moves each kept character down to the next free cell, then shortens
        the string; the buffer itself is not reallocated. */
    method Retain()
      requires Valid()
      modifies this, chars
      ensures Valid() && chars == old(chars)
      ensures Contents() == FilterLine(old(Contents()))
    {
      ghost var s := chars[..len];
      var read, write := 0, 0;
      while read < len
        invariant chars == old(chars) && len == |s|
        invariant write <= read <= len <= chars.Length
        invariant chars[..write] == FilterLine(s[..read])
        invariant forall k :: read <= k < len ==> chars[k] == s[k]
      {
        var c := chars[read];
        assert c == s[read];
        assert s[..read + 1] == s[..read] + [c];
        FilterAppend(s[..read], [c]);
        if IsBfChar(c) {
          chars[write] := c;
          write := write + 1;
        }
        read := read + 1;
      }
      assert s[..len] == s;
      len := write;
    }
  }
}
