/**
  The invocation the trimmer hands to the transcoding engine: seek to the
  start of the selection on the input, copy the selection's length of
  every stream without re-encoding, report progress on a pipe, and write
  the output file. Numbers are kept as exact values; how they are
  printed is not modelled.
*/
module ExportCommand {
  import opened Wrappers
  import Range

  /** One argument: a literal word, or a number of seconds. */
  datatype Arg = Word(text: string) | Seconds(value: real)

  const InputFile: string := "input.mp4"
  const OutputFile: string := "output.mp4"

  /** The eleven arguments of the stream-copy trim, for absolute start and end times. */
  function TrimCommand(start: real, end: real): (cmd: seq<Arg>)
    ensures |cmd| == 11
  {
    [ Word("-ss"), Seconds(start), Word("-i"), Word(InputFile), Word("-t"), Seconds(end - start),
      Word("-c"), Word("copy"), Word("-progress"), Word("pipe:1"), Word(OutputFile) ]
  }

  /** How the engine reads an option: the argument right after the first occurrence of `flag`. */
  function OptionValue(cmd: seq<Arg>, flag: string): Option<Arg>
    decreases |cmd|
  {
    if |cmd| < 2 then None
    else if cmd[0] == Word(flag) then Some(cmd[1])
    else OptionValue(cmd[1..], flag)
  }

  /** The value of an option is the argument after its first occurrence. */
  lemma {:induction false} OptionValueAt(before: seq<Arg>, flag: string, v: Arg, after: seq<Arg>)
    requires Word(flag) !in before
    ensures OptionValue(before + [Word(flag), v] + after, flag) == Some(v)
    decreases |before|
  {
    var cmd := before + [Word(flag), v] + after;
    if |before| > 0 {
      assert cmd[1..] == before[1..] + [Word(flag), v] + after;
      assert Word(flag) !in before[1..] by {
        assert forall i :: 0 <= i < |before[1..]| ==> before[1..][i] == before[i + 1];
      }
      OptionValueAt(before[1..], flag, v, after);
    }
  }

  /** The first three options of the command: where to seek, what to read, how long to copy. */
  lemma SeekInputLength(start: real, end: real)
    ensures var cmd := TrimCommand(start, end);
      && OptionValue(cmd, "-ss") == Some(Seconds(start))
      && OptionValue(cmd, "-i") == Some(Word(InputFile))
      && OptionValue(cmd, "-t") == Some(Seconds(end - start))
  {
    var cmd := TrimCommand(start, end);
    OptionValueAt([], "-ss", Seconds(start), cmd[2..]);
    assert cmd == [] + [Word("-ss"), Seconds(start)] + cmd[2..];
    OptionValueAt(cmd[..2], "-i", Word(InputFile), cmd[4..]);
    assert cmd == cmd[..2] + [Word("-i"), Word(InputFile)] + cmd[4..];
    OptionValueAt(cmd[..4], "-t", Seconds(end - start), cmd[6..]);
    assert cmd == cmd[..4] + [Word("-t"), Seconds(end - start)] + cmd[6..];
  }

  /** The last options of the command: copy the streams, report to `pipe:1`, write `output.mp4`. */
  lemma CopyProgressOutput(start: real, end: real)
    ensures var cmd := TrimCommand(start, end);
      && OptionValue(cmd, "-c") == Some(Word("copy"))
      && OptionValue(cmd, "-progress") == Some(Word("pipe:1"))
      && cmd[|cmd| - 1] == Word(OutputFile)
  {
    var cmd := TrimCommand(start, end);
    var head := cmd[..6];
    assert Word("-c") !in head && Word("-progress") !in head;
    OptionValueAt(head, "-c", Word("copy"), cmd[8..]);
    assert cmd == head + [Word("-c"), Word("copy")] + cmd[8..];
    OptionValueAt(head + [Word("-c"), Word("copy")], "-progress", Word("pipe:1"), cmd[10..]);
    assert cmd == head + [Word("-c"), Word("copy")] + [Word("-progress"), Word("pipe:1")] + cmd[10..];
  }

  /**
    What the engine reads from the command: seek to `start`, read
    `input.mp4`, take `end - start` seconds, copy the streams, progress to
    `pipe:1`, and the last argument names `output.mp4`.
  */
  lemma CommandMeaning(start: real, end: real)
    ensures var cmd := TrimCommand(start, end);
      && OptionValue(cmd, "-ss") == Some(Seconds(start))
      && OptionValue(cmd, "-i") == Some(Word(InputFile))
      && OptionValue(cmd, "-t") == Some(Seconds(end - start))
      && OptionValue(cmd, "-c") == Some(Word("copy"))
      && OptionValue(cmd, "-progress") == Some(Word("pipe:1"))
      && cmd[|cmd| - 1] == Word(OutputFile)
  {
    SeekInputLength(start, end);
    CopyProgressOutput(start, end);
  }

  /** Different selections give different commands: the command determines the start and the end. */
  lemma CommandDeterminesWindow(s1: real, e1: real, s2: real, e2: real)
    requires TrimCommand(s1, e1) == TrimCommand(s2, e2)
    ensures s1 == s2 && e1 == e2
  {
    assert TrimCommand(s1, e1)[1] == TrimCommand(s2, e2)[1];
    assert TrimCommand(s1, e1)[5] == TrimCommand(s2, e2)[5];
  }

  /** A 30 s video with the selection 10-20 % is cut from 3 s for 3 s. */
  lemma CommandExample()
    ensures var cmd := TrimCommand(Range.StartTime([10.0, 20.0], 30.0), Range.EndTime([10.0, 20.0], 30.0));
      cmd[1] == Seconds(3.0) && cmd[5] == Seconds(3.0)
  {
  }
}
