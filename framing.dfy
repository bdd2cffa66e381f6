/** The message framing of `handle_game_client`: received text is
    appended to a buffer, and every complete `{...}` object in it is cut
    out at the first closing brace and handed to `json.loads`. The JSON
    parser is not modelled; it is the predicate `parses`. */
module Framing {
  import opened Strings

  /** `json.loads(chunk)` succeeds. The parser is a parameter, except that
      it never accepts the empty text, which `json.loads` always rejects. */
  predicate Decodes(parses: string -> bool, chunk: string)
  {
    chunk != [] && parses(chunk)
  }

  /** What one pass of the inner loop leaves behind: the chunks that were
      decoded and processed, in order, and the new buffer. */
  datatype Drain = Drain(delivered: seq<string>, rest: string)

  /** A chunk as the loop cuts it: an opening brace, no closing brace
      before the last character, and a closing brace there. */
  predicate Braced(chunk: string)
  {
    |chunk| >= 2 && chunk[0] == '{' && chunk[|chunk| - 1] == '}' && '}' !in chunk[..|chunk| - 1]
  }

  /** The inner `while True` loop on `buffer`: stop when no `}` is left;
      drop the whole buffer when a `}` has no `{` anywhere; otherwise cut
      from the first `{` to the first `}` (an empty cut when the `{` comes
      later), process it if it decodes, and go on after the `}`. */
  function Frames(buffer: string, parses: string -> bool): (d: Drain)
    ensures '}' !in d.rest
    ensures |d.rest| <= |buffer|
    ensures '}' !in buffer ==> d == Drain([], buffer)
    ensures forall m :: m in d.delivered ==> Braced(m) && parses(m)
    decreases |buffer|
  {
    var close := Find(buffer, '}');
    if close < 0 then Drain([], buffer)
    else
      var open := Find(buffer, '{');
      if open < 0 then Drain([], [])
      else
        var chunk := Slice(buffer, open, close + 1);
        var after := Frames(buffer[close + 1..], parses);
        if Decodes(parses, chunk) then
          CutIsBraced(buffer, open, close);
          Drain([chunk] + after.delivered, after.rest)
        else
          after
  }

  /** A non-empty cut from the first `{` to the first `}` is braced. */
  lemma CutIsBraced(buffer: string, open: nat, close: nat)
    requires close < |buffer| && buffer[close] == '}' && '}' !in buffer[..close]
    requires open < |buffer| && buffer[open] == '{' && open < close + 1
    ensures Braced(Slice(buffer, open, close + 1))
  {
    var chunk := Slice(buffer, open, close + 1);
    assert chunk == buffer[open..close + 1];
    forall k | 0 <= k < |chunk| - 1 ensures chunk[k] != '}' {
      assert chunk[k] == buffer[..close][open + k];
    }
  }

  /** One turn of the loop on a buffer holding both braces. */
  lemma FramesStep(buffer: string, parses: string -> bool)
    requires '}' in buffer && '{' in buffer
    ensures var close := Find(buffer, '}');
      var chunk := Slice(buffer, Find(buffer, '{'), close + 1);
      var after := Frames(buffer[close + 1..], parses);
      Frames(buffer, parses) == if Decodes(parses, chunk) then Drain([chunk] + after.delivered, after.rest) else after
  {
    var close, open := Find(buffer, '}'), Find(buffer, '{');
    assert close >= 0 && open >= 0;
  }

  /** The loop as `handle_game_client` runs it on the buffer after a
      `recv`. */
  method ProcessBuffer(buffer: string, parses: string -> bool) returns (delivered: seq<string>, rest: string)
    ensures Drain(delivered, rest) == Frames(buffer, parses)
  {
    delivered, rest := [], buffer;
    assert delivered + Frames(rest, parses).delivered == Frames(rest, parses).delivered;
    while true
      invariant Frames(buffer, parses).delivered == delivered + Frames(rest, parses).delivered
      invariant Frames(buffer, parses).rest == Frames(rest, parses).rest
      decreases |rest|
    {
      var close := Find(rest, '}');
      if close == -1 {
        break;
      }
      var open := Find(rest, '{');
      if open == -1 {
        rest := [];
        break;
      }
      var chunk := Slice(rest, open, close + 1);
      FramesStep(rest, parses);
      if Decodes(parses, chunk) {
        RegroupChunks(delivered, chunk, Frames(rest[close + 1..], parses).delivered);
        delivered := delivered + [chunk];
      }
      rest := rest[close + 1..];
    }
  }

  lemma RegroupChunks(done: seq<string>, chunk: string, later: seq<string>)
    ensures done + ([chunk] + later) == (done + [chunk]) + later
  {
  }

  /** The text of several messages sent back to back. */
  function Concat(ms: seq<string>): string
  {
    if |ms| == 0 then [] else ms[0] + Concat(ms[1..])
  }

  /** The first `}` of a braced chunk followed by anything is its last
      character, and its first `{` is its first. */
  lemma BracedFinds(m: string, tail: string)
    requires Braced(m)
    ensures Find(m + tail, '}') == |m| - 1 && Find(m + tail, '{') == 0
    ensures (m + tail)[|m|..] == tail
  {
    var s := m + tail;
    assert s[|m| - 1] == '}' && s[..|m| - 1] == m[..|m| - 1];
  }

  /** A braced message the parser accepts, at the head of the buffer, is
      delivered first, and the loop goes on with what follows it. */
  lemma FramesHead(m: string, others: string, parses: string -> bool)
    requires Braced(m) && parses(m)
    ensures Frames(m + others, parses) ==
      Drain([m] + Frames(others, parses).delivered, Frames(others, parses).rest)
  {
    var s := m + others;
    BracedFinds(m, others);
    assert s[0] == '{' && s[|m| - 1] == '}';
    FramesStep(s, parses);
    assert Slice(s, 0, |m|) == m;
  }

  /** Messages that are each one braced object the parser accepts, sent
      back to back and followed by text without a `}`, are delivered one
      by one, and the trailing text stays in the buffer. */
  lemma {:induction false} FramesConcat(ms: seq<string>, tail: string, parses: string -> bool)
    requires forall m :: m in ms ==> Braced(m) && parses(m)
    requires '}' !in tail
    ensures Frames(Concat(ms) + tail, parses) == Drain(ms, tail)
  {
    if |ms| > 0 {
      var others := Concat(ms[1..]) + tail;
      assert Concat(ms) + tail == ms[0] + others;
      assert ms[0] in ms;
      FramesHead(ms[0], others, parses);
      FramesConcat(ms[1..], tail, parses);
      assert ms == [ms[0]] + ms[1..];
    }
  }

  /** A message that arrives in two `recv` calls: the first part, which
      holds no `}`, is kept whole, and once the second part arrives the
      message is delivered. */
  lemma SplitDelivery(m: string, cut: nat, parses: string -> bool)
    requires Braced(m) && parses(m) && cut < |m|
    ensures Frames(m[..cut], parses) == Drain([], m[..cut])
    ensures Frames(Frames(m[..cut], parses).rest + m[cut..], parses) == Drain([m], [])
  {
    assert '}' !in m[..cut] by {
      forall k | 0 <= k < cut ensures m[..cut][k] != '}' {
        assert m[..cut][k] == m[..|m| - 1][k];
      }
    }
    assert m[..cut] + m[cut..] == m;
    FramesConcat([m], [], parses);
    assert Concat([m]) + [] == m;
  }

  /** A `}` inside a message (in a string value or a nested object) ends
      the cut early: the text up to that brace is handed to the parser on
      its own, and the remainder of the message is scanned as a new
      buffer. */
  lemma CutAtFirstClose(m: string, k: nat, tail: string, parses: string -> bool)
    requires |m| >= 1 && m[0] == '{' && k < |m| && m[k] == '}' && '}' !in m[..k]
    ensures var head := m[..k + 1];
      Frames(m + tail, parses) ==
        var after := Frames(m[k + 1..] + tail, parses);
        if parses(head) then Drain([head] + after.delivered, after.rest) else after
  {
    var s := m + tail;
    assert s[k] == '}' && s[..k] == m[..k];
    assert Find(s, '{') == 0;
    assert Slice(s, 0, k + 1) == m[..k + 1];
    assert s[k + 1..] == m[k + 1..] + tail;
  }
}
