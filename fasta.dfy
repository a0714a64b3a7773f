/**
 * The FASTA text the index build writes for its sequences: one two-line record per
 * sequence, a header line `>` followed by the sequence identifier, then the sequence.
 */
module Fasta {
  import opened Wrappers
  import opened Documents

  /** The record written for one sequence. */
  function Record(s: Sequence): string {
    ">" + s.id + "\n" + s.sequence + "\n"
  }

  /** The whole file: the records of `sequences`, in order. */
  function FastaText(sequences: seq<Sequence>): string {
    if sequences == [] then "" else Record(sequences[0]) + FastaText(sequences[1..])
  }

  lemma {:induction false} FastaTextSnoc(sequences: seq<Sequence>, s: Sequence)
    ensures FastaText(sequences + [s]) == FastaText(sequences) + Record(s)
  {
    if sequences == [] {
      assert [s][1..] == [];
    } else {
      assert (sequences + [s])[1..] == sequences[1..] + [s];
      FastaTextSnoc(sequences[1..], s);
    }
  }

  /** Writes the records one after another, appending each to what was written before. */
  method WriteSequencesToFile(sequences: seq<Sequence>) returns (written: string)
    ensures written == FastaText(sequences)
  {
    written := "";
    for i := 0 to |sequences|
      invariant written == FastaText(sequences[..i])
    {
      var sequenceId := sequences[i].id;
      var sequenceData := sequences[i].sequence;
      var line := ">" + sequenceId + "\n" + sequenceData + "\n";
      FastaTextSnoc(sequences[..i], sequences[i]);
      assert sequences[..i + 1] == sequences[..i] + [sequences[i]];
      written := written + line;
    }
    assert sequences[..|sequences|] == sequences;
  }

  /** A field that fits on one line. */
  predicate OneLine(s: string) {
    '\n' !in s
  }

  /** Splits `s` after its first line: the line and the text after its newline. */
  function NextLine(s: string): (r: Option<(string, string)>)
    ensures r.None? <==> OneLine(s)
    ensures r.Some? ==> OneLine(r.value.0) && s == r.value.0 + "\n" + r.value.1
  {
    if s == [] then None
    else if s[0] == '\n' then Some(([], s[1..]))
    else match NextLine(s[1..])
      case None => None
      case Some((line, rest)) => Some(([s[0]] + line, rest))
  }

  /** Reads FASTA text back into (identifier, sequence) pairs; `None` when it is malformed. */
  function ParseFasta(text: string): Option<seq<(string, string)>>
    decreases |text|
  {
    if text == [] then Some([])
    else if text[0] != '>' then None
    else match NextLine(text[1..])
      case None => None
      case Some((id, afterHeader)) =>
        match NextLine(afterHeader)
        case None => None
        case Some((data, rest)) =>
          match ParseFasta(rest)
          case None => None
          case Some(records) => Some([(id, data)] + records)
  }

  /** The (identifier, sequence) pairs of `sequences`. */
  function Pairs(sequences: seq<Sequence>): (r: seq<(string, string)>)
    ensures |r| == |sequences|
    ensures forall i :: 0 <= i < |sequences| ==> r[i] == (sequences[i].id, sequences[i].sequence)
  {
    seq(|sequences|, i requires 0 <= i < |sequences| => (sequences[i].id, sequences[i].sequence))
  }

  lemma {:induction false} NextLineOf(line: string, rest: string)
    requires OneLine(line)
    ensures NextLine(line + "\n" + rest) == Some((line, rest))
  {
    if line != [] {
      assert (line + "\n" + rest)[1..] == line[1..] + "\n" + rest;
      NextLineOf(line[1..], rest);
      assert [line[0]] + line[1..] == line;
    }
  }

  /** A record in front of further text parses as that record followed by the text's records. */
  lemma ParseFastaRecord(s: Sequence, rest: string)
    requires OneLine(s.id) && OneLine(s.sequence)
    ensures ParseFasta(Record(s) + rest) ==
      match ParseFasta(rest)
      case None => None
      case Some(records) => Some([(s.id, s.sequence)] + records)
  {
    var text := Record(s) + rest;
    var afterHeader := s.sequence + "\n" + rest;
    assert text == ">" + (s.id + "\n" + afterHeader);
    assert text[0] == '>';
    assert text[1..] == s.id + "\n" + afterHeader;
    NextLineOf(s.id, afterHeader);
    NextLineOf(s.sequence, rest);
  }

  /**
   * Reading the file back recovers every (identifier, sequence) pair in order, provided no
   * identifier and no sequence holds a newline.
   */
  lemma {:induction false} ParseFastaRoundTrip(sequences: seq<Sequence>)
    requires forall i :: 0 <= i < |sequences| ==> OneLine(sequences[i].id) && OneLine(sequences[i].sequence)
    ensures ParseFasta(FastaText(sequences)) == Some(Pairs(sequences))
  {
    if sequences != [] {
      var tail := sequences[1..];
      ParseFastaRoundTrip(tail);
      ParseFastaRecord(sequences[0], FastaText(tail));
      assert Pairs(sequences) == [(sequences[0].id, sequences[0].sequence)] + Pairs(tail);
    }
  }

  /** The number of occurrences of `c` in `s`. */
  function Occurrences(s: string, c: char): nat {
    if s == [] then 0 else (if s[0] == c then 1 else 0) + Occurrences(s[1..], c)
  }

  lemma {:induction false} OccurrencesConcat(a: string, b: string, c: char)
    ensures Occurrences(a + b, c) == Occurrences(a, c) + Occurrences(b, c)
  {
    if a != [] {
      assert (a + b)[1..] == a[1..] + b;
      OccurrencesConcat(a[1..], b, c);
    } else {
      assert a + b == b;
    }
  }

  lemma {:induction false} NoOccurrences(s: string, c: char)
    requires c !in s
    ensures Occurrences(s, c) == 0
  {
    if s != [] {
      NoOccurrences(s[1..], c);
    }
  }

  /** Every record is exactly two lines: the file holds two newlines per sequence. */
  lemma {:induction false} TwoLinesPerRecord(sequences: seq<Sequence>)
    requires forall i :: 0 <= i < |sequences| ==> OneLine(sequences[i].id) && OneLine(sequences[i].sequence)
    ensures Occurrences(FastaText(sequences), '\n') == 2 * |sequences|
  {
    if sequences != [] {
      var s := sequences[0];
      OccurrencesConcat(">" + s.id + "\n" + s.sequence, "\n", '\n');
      OccurrencesConcat(">" + s.id + "\n", s.sequence, '\n');
      OccurrencesConcat(">" + s.id, "\n", '\n');
      OccurrencesConcat(">", s.id, '\n');
      OccurrencesConcat(Record(s), FastaText(sequences[1..]), '\n');
      NoOccurrences(s.id, '\n');
      NoOccurrences(s.sequence, '\n');
      TwoLinesPerRecord(sequences[1..]);
    }
  }
}
