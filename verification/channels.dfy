/** The two input channels the program consumes: lines typed on standard input,
    and chunks of an HTTP response body read as a byte stream. */
module Channels {

  /** One item of `bytes_stream()`: a chunk of body text, or a transport error. */
  datatype Chunk = Data(text: string) | Broken

  /** `read_line` on standard input: the next line without its terminator, or the
      empty string once input is exhausted. */
  function ReadLine(stdin: seq<string>): (string, seq<string>) {
    if |stdin| == 0 then ("", []) else (stdin[0], stdin[1..])
  }

  /** The `k`-th line that `read_line` will return, counting from 0. */
  function LineAt(stdin: seq<string>, k: nat): string {
    if k < |stdin| then stdin[k] else ""
  }

  /** What is left of standard input after `k` calls of `read_line`. */
  function DropLines(stdin: seq<string>, k: nat): seq<string> {
    if k < |stdin| then stdin[k..] else []
  }

  /** Reading line `k` from what is left after `k` reads yields `LineAt(stdin, k)`. */
  lemma ReadLineAt(stdin: seq<string>, k: nat)
    ensures ReadLine(DropLines(stdin, k)) == (LineAt(stdin, k), DropLines(stdin, k + 1))
  {
    if k < |stdin| {
      assert stdin[k..][1..] == stdin[k + 1..];
    }
  }

  /** Dropping `a` lines and then `b` more drops `a + b`. */
  lemma DropLinesTwice(stdin: seq<string>, a: nat, b: nat)
    ensures DropLines(DropLines(stdin, a), b) == DropLines(stdin, a + b)
    ensures LineAt(DropLines(stdin, a), b) == LineAt(stdin, a + b)
  {
    if a + b < |stdin| {
      assert stdin[a..][b..] == stdin[a + b..];
    }
  }
}
