/** Newline framing of a stream that arrives in chunks: what is dispatched depends on the
    concatenated text only. */
module Framing {
  import opened Text

  /** The lines that a newline ends, without it. */
  function Lines(text: string): seq<string> {
    var newline := IndexOf(text, '\n');
    if newline == -1 then [] else [text[..newline]] + Lines(text[newline + 1..])
  }

  /** What follows the last newline. */
  function Tail(text: string): string {
    var newline := IndexOf(text, '\n');
    if newline == -1 then text else Tail(text[newline + 1..])
  }

  function Flatten(chunks: seq<string>): string {
    if chunks == [] then "" else Flatten(chunks[..|chunks| - 1]) + chunks[|chunks| - 1]
  }

  lemma FlattenSnoc(chunks: seq<string>, chunk: string)
    ensures Flatten(chunks + [chunk]) == Flatten(chunks) + chunk
  {
    assert (chunks + [chunk])[..|chunks|] == chunks;
  }

  lemma {:induction false} TailHasNoNewline(text: string)
    ensures '\n' !in Tail(text)
  {
    hide IndexOf;
    var newline := IndexOf(text, '\n');
    if newline != -1 {
      TailHasNoNewline(text[newline + 1..]);
    }
  }

  lemma NextLine(text: string)
    ensures var newline := IndexOf(text, '\n');
      && Lines(text) == (if newline == -1 then [] else [text[..newline]] + Lines(text[newline + 1..]))
      && Tail(text) == (if newline == -1 then text else Tail(text[newline + 1..]))
  {
    hide IndexOf;
  }

  /** Keeping only the newline-free tail between chunks loses and invents no line. */
  lemma {:induction false} Feed(before: string, chunk: string)
    ensures Lines(before + chunk) == Lines(before) + Lines(Tail(before) + chunk)
    ensures Tail(before + chunk) == Tail(Tail(before) + chunk)
  {
    hide IndexOf, Lines, Tail;
    var newline := IndexOf(before, '\n');
    NextLine(before);
    if newline == -1 {
      assert [] + Lines(before + chunk) == Lines(before + chunk);
    } else {
      var more := before[newline + 1..];
      var both := before + chunk;
      IndexOfConcat(before, chunk, '\n');
      assert both[..newline] == before[..newline];
      assert both[newline + 1..] == more + chunk;
      NextLine(both);
      Feed(more, chunk);
      PrependConcat([before[..newline]], Lines(more), Lines(Tail(more) + chunk));
    }
  }

}
