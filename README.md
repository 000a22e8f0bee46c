# rust-bf character filter, modelled in Dafny

The program reads a Brainfuck source file and keeps only the eight
instruction symbols `+ - < > . , [ ]`. Each line it reads is an owned
`String` that `retain` shrinks in place, keeping exactly the characters found
in the `bf_chars` array. The filtered lines are collected into a
`Vec<String>`, in line order and with empty ones kept. That vector is then
flattened into one `Vec<char>` program and printed.

The model has two modules:

- `Filter` (`filter.dfy`) holds the alphabet (`BfChars`, `IsBfChar`) and the
  filter as a function on one line (`FilterLine`). It also has a class
  `LineBuffer`, a character array with a length standing for the owned
  `String`, whose `Retain` method compacts the array in place. `Retain` is proved
  to leave exactly `FilterLine` of the old contents. `FilterLine` is
  characterised without reference to its own definition in three ways:
  - by a count per character: each alphabet symbol keeps all its occurrences
    and every other character keeps none;
  - by order: the result is a subsequence of the line;
  - as the unique longest subsequence of the line made of symbols only.
- `Pipeline` (`pipeline.dfy`) holds the iterator pipeline. `FilterLines` is
  the map-and-collect into the vector, `Flatten` is `flat_map(|s| s.chars())`
  and `Program` is the program vector. Line terminators hold no symbol. So
  the program is the filter applied to the file's whole text, with the
  terminators that line splitting removed put back in.

A Rust `String`/`char` sequence is `seq<char>`. A file is given as its
already-split lines, a `seq<seq<char>>`.

## Model

| member | source | states |
|---|---|---|
| `Filter.IsBfChar` | src/main.rs:18-26 | a character passes the `bf_chars.contains(&c)` test exactly when it is one of `+ - < > . , [ ]` |
| `Filter.FilterLine` | src/main.rs:18-26 | the filtered line is no longer than the line, and every character in it is one of the eight symbols |
| `Filter.FilterKeepsIff` | src/main.rs:26 | a character is kept exactly when it is in `bf_chars`; then every one of its occurrences survives, and otherwise none does |
| `Filter.FilterLength` | src/main.rs:18-26 | the filtered length equals the number of occurrences of the eight symbols in the line |
| `Filter.FilterIsSubseq` | src/main.rs:26 | the kept characters stay in their original relative order: the result is a subsequence of the line |
| `Filter.SymbolSubseqOfFilter` | src/main.rs:26 | every symbols-only subsequence of the line is a subsequence of the filtered line |
| `Filter.FilterIsLongestSymbolSubseq` | src/main.rs:26 | no symbols-only subsequence of the line is longer than the filtered line, and one of equal length is the filtered line |
| `Filter.FilterAppend` | src/main.rs:26 | filtering `a + b` gives the filtered `a` followed by the filtered `b` |
| `Filter.FilterFixpoint` | src/main.rs:26 | a line is unchanged by the filter if and only if all its characters are symbols |
| `Filter.FilterIdempotent` | src/main.rs:26 | filtering an already filtered line changes nothing |
| `Filter.FilterEmpty` | src/main.rs:26 | a line filters to the empty string if and only if it holds no symbol |
| `Filter.LineBuffer.Retain` | src/main.rs:24-27 | compacting the owned line in place leaves the same buffer holding exactly `FilterLine` of its old contents |
| `Pipeline.FilterLines` | src/main.rs:20-30 | the collected vector has one entry per line, in line order, each the filtered line; blank lines are not dropped |
| `Pipeline.FlattenSingle` | src/main.rs:41 | flattening a vector holding one string gives that string's characters |
| `Pipeline.FlattenAppend` | src/main.rs:41 | flattening two vectors in sequence gives the first's characters followed by the second's, so `flat_map` emits the strings in vector order |
| `Pipeline.ProgramSingleLine` | src/main.rs:20-41 | the program of a single line is that line filtered |
| `Pipeline.Program` | src/main.rs:41 | every character of the program vector is one of the eight symbols |
| `Pipeline.ProgramFiltersJoinedLines` | src/main.rs:41 | flattening the filtered lines equals filtering the lines joined without separators |
| `Pipeline.ProgramIsFilteredText` | src/main.rs:20-41 | if every line terminator holds no symbol, the program equals the filter applied to the whole text, terminators included |
| `Pipeline.ProgramAppend` | src/main.rs:41 | the program of two runs of lines is the first run's program followed by the second's |
| `Pipeline.ProgramLength` | src/main.rs:30-41 | the program's length is the sum of the per-line symbol counts, and an empty list of lines gives an empty program (the program itself rejects a zero-byte file before reading lines) |
| `Pipeline.SymbolFreeLine` | src/main.rs:37-41 | a line without symbols keeps an empty entry in the vector and adds nothing to the program |

## Left out

- Command-line handling: `args().nth(1)` and the "Expected filename" error (src/main.rs:8). This is process I/O.
- `File::open`, the `metadata()?.len() == 0` rejection of an empty file, and `BufReader` (src/main.rs:10-16). These are filesystem I/O. The filter and the pipeline accept an empty input and give an empty program (`Pipeline.ProgramLength`), so the guard is left to the caller.
- Line splitting by `BufRead::lines()` (src/main.rs:21, 30). This covers newline and CRLF handling, UTF-8 decoding and `io::Error` propagation through `collect::<Result<..>>()?`. The lines are taken as input. `Pipeline.ProgramIsFilteredText` relates them to the text through the terminators the split removed.
- Printing (src/main.rs:44). `bf.iter().collect::<String>()` turns the program into a string with the same characters in the same order. On `seq<char>` that is the identity, so the printed text is `Pipeline.Program` itself. The newline `println!` adds is output formatting.
- The commented-out loop variant (src/main.rs:46-57). It is dead code.
- Byte-level representation of `String`: a Rust `String` is a UTF-8 byte buffer, and `retain` moves runs of one to four bytes per character. `Filter.LineBuffer` keeps one array cell per `char`, so the model states the result at the character level only. It does not model byte offsets or UTF-8 encoding.
- Instruction kinds, tokens with line and column positions, and interpretation: the program has none of these. It only filters and prints characters.
