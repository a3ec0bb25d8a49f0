/** The two stream drainers of the deployer, InputReader and ErrorReader:
    read a process stream line by line and accumulate each line followed by a
    separator ("\n" for standard output, " " for standard error). */
module Streams {
  import opened Java
  import opened Console

  /** A process stream as the readers see it: the lines readLine returns, in
      order, and whether the read after the last of them fails instead of
      reporting the end of the stream. */
  datatype Stream = Stream(lines: seq<string>, readFails: bool)

  const InputSeparator: string := "\n"
  const ErrorSeparator: string := " "

  /** Every line followed by the separator, concatenated in order. */
  function Joined(lines: seq<string>, sep: string): string {
    if lines == [] then ""
    else Joined(lines[..|lines| - 1], sep) + lines[|lines| - 1] + sep
  }

  /** What a reader returns: null for a null stream, the joined lines otherwise. */
  function TextOf(stream: Option<Stream>, sep: string): Option<string> {
    if stream.None? then None else Some(Joined(stream.value.lines, sep))
  }

  /** What a reader prints: one stack trace when a read fails. */
  function ReadFailure(stream: Option<Stream>): (log: seq<Effect>)
    ensures |log| <= 1 && Commands(log) == [] && Dispatches(log) == []
  {
    if stream.Some? && stream.value.readFails then [StackTrace(IOFailure)] else []
  }

  /** The loop both readers run. A failing read ends the loop; the text
      accumulated so far is still returned. */
  method Drain(stream: Option<Stream>, sep: string) returns (text: Option<string>, log: seq<Effect>)
    ensures text == TextOf(stream, sep)
    ensures log == ReadFailure(stream)
  {
    if stream.None? {
      return None, [];
    }
    var lines := stream.value.lines;
    var builder := "";
    var i := 0;  // position of the reader in the stream
    while i < |lines|
      invariant 0 <= i <= |lines|
      invariant builder == Joined(lines[..i], sep)
    {
      assert lines[..i + 1][..i] == lines[..i];
      builder := builder + lines[i] + sep;
      i := i + 1;
    }
    assert lines[..i] == lines;
    log := if stream.value.readFails then [StackTrace(IOFailure)] else [];
    text := Some(builder);
  }

  /** InputReader.call: standard output, one line per "\n"-terminated piece.
      Since readLine never returns a line holding a line break, splitting the
      text at its line breaks gives back exactly the lines read. */
  method ReadInput(stream: Option<Stream>) returns (text: Option<string>, log: seq<Effect>)
    ensures stream.None? ==> text == None
    ensures stream.Some? ==> text == Some(Joined(stream.value.lines, "\n"))
    ensures stream.Some? && NoLineBreaks(stream.value.lines) ==> SplitLines(text.value) == stream.value.lines
    ensures log == ReadFailure(stream)
  {
    text, log := Drain(stream, InputSeparator);
    if stream.Some? && NoLineBreaks(stream.value.lines) {
      SplitJoined(stream.value.lines);
    }
  }

  /** ErrorReader.call: standard error, each line followed by a space. The
      text is empty exactly when no line was read. */
  method ReadError(stream: Option<Stream>) returns (text: Option<string>, log: seq<Effect>)
    ensures stream.None? ==> text == None
    ensures stream.Some? ==> text == Some(Joined(stream.value.lines, " "))
    ensures stream.Some? ==> (text == Some("") <==> stream.value.lines == [])
    ensures log == ReadFailure(stream)
  {
    text, log := Drain(stream, ErrorSeparator);
    if stream.Some? {
      JoinedEmptyIff(stream.value.lines, ErrorSeparator);
    }
  }

  lemma JoinedEmptyIff(lines: seq<string>, sep: string)
    requires sep != ""
    ensures Joined(lines, sep) == "" <==> lines == []
  {
    if lines != [] {
      assert |Joined(lines, sep)| >= |sep|;
    }
  }

  lemma {:induction false} JoinedAppend(a: seq<string>, b: seq<string>, sep: string)
    ensures Joined(a + b, sep) == Joined(a, sep) + Joined(b, sep)
  {
    if b == [] {
      assert a + b == a;
    } else {
      var b' := b[..|b| - 1];
      assert (a + b)[..|a + b| - 1] == a + b';
      assert (a + b)[|a + b| - 1] == b[|b| - 1];
      JoinedAppend(a, b', sep);
    }
  }

  lemma JoinedFront(lines: seq<string>, sep: string)
    requires lines != []
    ensures Joined(lines, sep) == lines[0] + sep + Joined(lines[1..], sep)
  {
    assert lines == [lines[0]] + lines[1..];
    JoinedAppend([lines[0]], lines[1..], sep);
    assert [lines[0]][..0] == [];
  }

  predicate NoLineBreaks(lines: seq<string>) {
    forall i :: 0 <= i < |lines| ==> '\n' !in lines[i]
  }

  /** Position of the first c in s, or |s| when there is none. */
  function IndexOf(s: string, c: char): (r: nat)
    ensures r <= |s|
    ensures r < |s| ==> s[r] == c
    ensures forall k :: 0 <= k < r ==> s[k] != c
  {
    if s == [] then 0
    else if s[0] == c then 0
    else 1 + IndexOf(s[1..], c)
  }

  /** The lines of a text, each ended by a line break; an unterminated
      remainder counts as a last line. */
  function SplitLines(s: string): seq<string>
    decreases |s|
  {
    if s == [] then []
    else
      var k := IndexOf(s, '\n');
      if k == |s| then [s] else [s[..k]] + SplitLines(s[k + 1..])
  }

  /** Splitting a line-break-free head followed by a line break peels off
      exactly that head. */
  lemma SplitFront(head: string, rest: string)
    requires '\n' !in head
    ensures SplitLines(head + "\n" + rest) == [head] + SplitLines(rest)
  {
    var s := head + "\n" + rest;
    assert s[|head|] == '\n';
    forall k | 0 <= k < |head| ensures s[k] != '\n' {
      assert s[k] == head[k];
    }
    assert IndexOf(s, '\n') == |head|;
    assert s[..|head|] == head;
    assert s[|head| + 1..] == rest;
  }

  /** Captured standard output loses nothing: the lines can be recovered. */
  lemma {:induction false} SplitJoined(lines: seq<string>)
    requires NoLineBreaks(lines)
    ensures SplitLines(Joined(lines, "\n")) == lines
  {
    if lines != [] {
      JoinedFront(lines, "\n");
      SplitFront(lines[0], Joined(lines[1..], "\n"));
      assert NoLineBreaks(lines[1..]) by {
        forall i | 0 <= i < |lines[1..]| ensures '\n' !in lines[1..][i] {
          assert lines[1..][i] == lines[i + 1];
        }
      }
      SplitJoined(lines[1..]);
      assert lines == [lines[0]] + lines[1..];
    }
  }
}
