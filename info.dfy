/**
 * The command line shown by the Info action: argv joined with spaces and
 * cut to a fixed length, with a note of how many characters were cut.
 */
module Info {
  import opened Text

  /** Longest command line shown in full. */
  const MaxCommandLength: nat := 256

  const NoteOpen: string := " ...("
  const NoteClose: string := " more characters)"

  /** The note appended after a cut line, counting the omitted characters. */
  function OmittedNote(omitted: nat): string
  {
    NoteOpen + DecimalString(omitted) + NoteClose
  }

  /** Keeps a line of at most 256 characters; otherwise its first 256 followed by the note. */
  function Truncate(line: string): string
  {
    if |line| > MaxCommandLength then line[..MaxCommandLength] + OmittedNote(|line| - MaxCommandLength)
    else line
  }

  /** The command text the Info action shows for a process's argv. */
  function CommandText(argv: seq<string>): string
  {
    Truncate(JoinSpace(argv))
  }

  /**
   * A short line is shown as it is. A long line keeps its first 256
   * characters, and the number written in the note reads back as the count
   * of characters left out, so the original length can be recovered.
   */
  lemma TruncateShowsOmittedCount(line: string)
    ensures |line| <= MaxCommandLength ==> Truncate(line) == line
    ensures |line| > MaxCommandLength ==>
              var r := Truncate(line);
              |r| > MaxCommandLength + |NoteOpen| + |NoteClose|
              && r[..MaxCommandLength] == line[..MaxCommandLength]
              && r[MaxCommandLength..MaxCommandLength + |NoteOpen|] == NoteOpen
              && r[|r| - |NoteClose|..] == NoteClose
              && (forall i :: MaxCommandLength + |NoteOpen| <= i < |r| - |NoteClose| ==> IsDigit(r[i]))
              && ParseDecimal(r[MaxCommandLength + |NoteOpen|..|r| - |NoteClose|]) == |line| - MaxCommandLength
  {
    if |line| > MaxCommandLength {
      var n := |line| - MaxCommandLength;
      var digits := DecimalString(n);
      var r := Truncate(line);
      assert r == line[..MaxCommandLength] + (NoteOpen + digits + NoteClose);
      SlicesOfFour(line[..MaxCommandLength], NoteOpen, digits, NoteClose);
      assert r[MaxCommandLength + |NoteOpen|..|r| - |NoteClose|] == digits;
      ParseDecimalString(n);
    }
  }

  /** Each of four concatenated pieces can be sliced back out. */
  lemma SlicesOfFour(a: string, b: string, c: string, d: string)
    ensures var s := a + (b + c + d);
            s[..|a|] == a && s[|a|..|a| + |b|] == b && s[|a| + |b|..|s| - |d|] == c && s[|s| - |d|..] == d
  {
    var s := a + (b + c + d);
    assert s[|a|..] == b + c + d;
    assert s[|a| + |b|..] == c + d;
  }

  /** The shown text exceeds the limit exactly when the line was cut. */
  lemma TruncatedIffLong(line: string)
    ensures |Truncate(line)| > MaxCommandLength <==> |line| > MaxCommandLength
  {
  }

  /** A command line that joins to 300 characters shows its first 256 and notes 44 more. */
  lemma ThreeHundredCharacters(argv: seq<string>)
    requires |JoinSpace(argv)| == 300
    ensures CommandText(argv) == JoinSpace(argv)[..256] + (NoteOpen + "44" + NoteClose)
  {
    assert DecimalString(44) == DecimalString(4) + [DigitChar(4)];
  }
}
