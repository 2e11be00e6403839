/**
  Newline framing of WebSocket messages: the server joins serialized messages into batches and
  batches into frames; the client splits each frame into lines, trims them and drops empty ones.
*/
module Framing {

  const NEWLINE: char := '\n'

  /** What the browser's trim removes: white space and line terminators. */
  predicate IsSpace(c: char) {
    || c in {'\t', '\n', '\U{0b}', '\U{0c}', '\r', ' ', '\U{a0}', '\U{1680}', '\U{2028}', '\U{2029}'}
    || c in {'\U{202f}', '\U{205f}', '\U{3000}', '\U{feff}'}
    || '\U{2000}' <= c <= '\U{200a}'
  }

  function TrimLeft(s: string): string {
    if s != "" && IsSpace(s[0]) then TrimLeft(s[1..]) else s
  }

  function TrimRight(s: string): string {
    if s != "" && IsSpace(s[|s| - 1]) then TrimRight(s[..|s| - 1]) else s
  }

  function Trim(s: string): string {
    TrimRight(TrimLeft(s))
  }

  /** The pieces between newlines; always at least one. */
  function Split(s: string): (lines: seq<string>)
    ensures lines != []
  {
    if s == "" then [""] else Prepend(s[0], Split(s[1..]))
  }

  /** The lines of a text with one more character in front. */
  function Prepend(c: char, lines: seq<string>): (r: seq<string>)
    requires lines != []
    ensures r != []
  {
    if c == NEWLINE then [""] + lines else [[c] + lines[0]] + lines[1..]
  }

  /** Trim every line and keep the ones that are not empty. */
  function Kept(lines: seq<string>): seq<string> {
    if lines == [] then []
    else KeptLine(Trim(lines[0])) + Kept(lines[1..])
  }

  function KeptLine(line: string): seq<string> {
    if line == "" then [] else [line]
  }

  /** What the client makes of one frame. */
  function Receive(frame: string): seq<string> {
    Kept(Split(frame))
  }

  /** Pieces with one newline between each two. */
  function Join(pieces: seq<string>): string {
    if pieces == [] then ""
    else if |pieces| == 1 then pieces[0]
    else Join(pieces[..|pieces| - 1]) + [NEWLINE] + pieces[|pieces| - 1]
  }

  // ----- Writing -----

  /** One payload from several serialized messages. */
  method SendBatch(messages: seq<string>) returns (payload: string)
    ensures payload == Join(messages)
  {
    payload := "";
    for i := 0 to |messages|
      invariant payload == Join(messages[..i]) + (if 0 < i < |messages| then [NEWLINE] else [])
    {
      payload := payload + messages[i];
      assert messages[..i + 1][..i] == messages[..i];
      if i < |messages| - 1 {
        payload := payload + [NEWLINE];
      }
    }
    assert messages[..|messages|] == messages;
  }

  /** One frame from the payload just taken off the queue and the n payloads waiting behind it. */
  method WriteFrame(queue: seq<string>, n: nat) returns (frame: string, rest: seq<string>)
    requires 1 + n <= |queue|
    ensures frame == Join(queue[..1 + n]) && rest == queue[1 + n..]
  {
    frame := queue[0];
    rest := queue[1..];
    for i := 0 to n
      invariant frame == Join(queue[..1 + i]) && rest == queue[1 + i..]
    {
      frame := frame + [NEWLINE];
      frame := frame + rest[0];
      assert queue[..2 + i][..1 + i] == queue[..1 + i];
      rest := rest[1..];
    }
  }

  // ----- Reading back -----

  /** A serialized message: not empty, no raw newline, no white space at either end. */
  predicate IsMessage(m: string) {
    m != "" && NEWLINE !in m && !IsSpace(m[0]) && !IsSpace(m[|m| - 1])
  }

  lemma {:induction false} SplitWithoutNewline(s: string)
    requires NEWLINE !in s
    ensures Split(s) == [s]
  {
    if s != "" {
      SplitWithoutNewline(s[1..]);
      assert [s[0]] + s[1..] == s;
    }
  }

  /** A newline separates: the lines of a + newline + b are the lines of a, then those of b. */
  lemma {:induction false} SplitAtNewline(a: string, b: string)
    ensures Split(a + [NEWLINE] + b) == Split(a) + Split(b)
  {
    var s := a + [NEWLINE] + b;
    if a == "" {
      assert s[0] == NEWLINE && s[1..] == b;
    } else {
      SplitAtNewline(a[1..], b);
      assert s[0] == a[0] && s[1..] == a[1..] + [NEWLINE] + b;
      PrependConcat(a[0], Split(a[1..]), Split(b));
    }
  }

  lemma PrependConcat(c: char, a: seq<string>, b: seq<string>)
    requires a != []
    ensures Prepend(c, a + b) == Prepend(c, a) + b
  {
    assert (a + b)[1..] == a[1..] + b;
  }

  lemma {:induction false} KeptConcat(a: seq<string>, b: seq<string>)
    ensures Kept(a + b) == Kept(a) + Kept(b)
  {
    if a == [] {
      assert a + b == b;
    } else {
      KeptConcat(a[1..], b);
      assert (a + b)[0] == a[0] && (a + b)[1..] == a[1..] + b;
      KeptConcatStep(KeptLine(Trim(a[0])), Kept(a[1..]), Kept(b));
    }
  }

  lemma KeptConcatStep(line: seq<string>, a: seq<string>, b: seq<string>)
    ensures line + (a + b) == (line + a) + b
  {
  }

  lemma ReceiveAtNewline(a: string, b: string)
    ensures Receive(a + [NEWLINE] + b) == Receive(a) + Receive(b)
  {
    SplitAtNewline(a, b);
    KeptConcat(Split(a), Split(b));
  }

  function ReceiveAll(frames: seq<string>): seq<string> {
    if frames == [] then [] else ReceiveAll(frames[..|frames| - 1]) + Receive(frames[|frames| - 1])
  }

  /** Receiving a joined frame is receiving its pieces one by one. */
  lemma {:induction false} ReceiveJoined(pieces: seq<string>)
    requires pieces != []
    ensures Receive(Join(pieces)) == ReceiveAll(pieces)
  {
    if |pieces| == 1 {
      assert pieces[..0] == [];
      assert ReceiveAll(pieces) == [] + Receive(pieces[0]);
    } else {
      var front := pieces[..|pieces| - 1];
      ReceiveJoined(front);
      ReceiveAtNewline(Join(front), pieces[|pieces| - 1]);
    }
  }

  lemma {:induction false} TrimLeftShape(s: string)
    ensures |TrimLeft(s)| <= |s| && (|TrimLeft(s)| == |s| ==> TrimLeft(s) == s)
    ensures TrimLeft(s) == s <==> (s == "" || !IsSpace(s[0]))
  {
    if s != "" && IsSpace(s[0]) {
      TrimLeftShape(s[1..]);
    }
  }

  lemma {:induction false} TrimRightShape(s: string)
    ensures |TrimRight(s)| <= |s|
    ensures TrimRight(s) == s <==> (s == "" || !IsSpace(s[|s| - 1]))
  {
    if s != "" && IsSpace(s[|s| - 1]) {
      TrimRightShape(s[..|s| - 1]);
    }
  }

  lemma TrimFixes(s: string)
    ensures Trim(s) == s <==> (s == "" || (!IsSpace(s[0]) && !IsSpace(s[|s| - 1])))
  {
    TrimLeftShape(s);
    TrimRightShape(TrimLeft(s));
  }

  lemma {:induction false} SplitCounts(s: string)
    ensures |Split(s)| == 1 <==> NEWLINE !in s
    ensures forall i :: 0 <= i < |Split(s)| ==> NEWLINE !in Split(s)[i] && |Split(s)[i]| <= |s|
    ensures NEWLINE in s ==> forall i :: 0 <= i < |Split(s)| ==> |Split(s)[i]| < |s|
  {
    if s != "" {
      SplitCounts(s[1..]);
    }
  }

  lemma {:induction false} KeptAreShort(lines: seq<string>, n: nat)
    requires forall i :: 0 <= i < |lines| ==> |lines[i]| < n
    ensures forall i :: 0 <= i < |Kept(lines)| ==> |Kept(lines)[i]| < n
  {
    if lines != [] {
      TrimLeftShape(lines[0]);
      TrimRightShape(TrimLeft(lines[0]));
      KeptAreShort(lines[1..], n);
    }
  }

  lemma MessageSurvives(m: string)
    requires IsMessage(m)
    ensures Receive(m) == [m]
  {
    SplitWithoutNewline(m);
    TrimFixes(m);
    assert Kept([m][1..]) == [];
  }

  /** Exactly the serialized messages come back as they were sent. */
  lemma SurvivesExactlyWhen(m: string)
    ensures Receive(m) == [m] <==> IsMessage(m)
  {
    if IsMessage(m) {
      MessageSurvives(m);
    } else {
      SplitCounts(m);
      if NEWLINE in m {
        KeptAreShort(Split(m), |m|);
        if |Receive(m)| > 0 {
          assert |Receive(m)[0]| < |m|;
        }
      } else {
        SplitWithoutNewline(m);
        TrimFixes(m);
        assert Kept([m][1..]) == [];
      }
    }
  }

  lemma {:induction false} MessagesSurvive(messages: seq<string>)
    requires forall i :: 0 <= i < |messages| ==> IsMessage(messages[i])
    ensures ReceiveAll(messages) == messages
  {
    if messages != [] {
      var front := messages[..|messages| - 1];
      MessagesSurvive(front);
      MessageSurvives(messages[|messages| - 1]);
      assert front + [messages[|messages| - 1]] == messages;
    }
  }

  /** A batch, even an empty one, comes back as its messages. */
  lemma BatchSurvives(messages: seq<string>)
    requires forall i :: 0 <= i < |messages| ==> IsMessage(messages[i])
    ensures Receive(Join(messages)) == messages
  {
    if messages == [] {
      assert Split("") == [""];
      assert Trim("") == "";
      assert Kept([""][1..]) == [];
    } else {
      ReceiveJoined(messages);
      MessagesSurvive(messages);
    }
  }

  function Concat(batches: seq<seq<string>>): seq<string> {
    if batches == [] then [] else Concat(batches[..|batches| - 1]) + batches[|batches| - 1]
  }

  function Payloads(batches: seq<seq<string>>): seq<string> {
    seq(|batches|, i requires 0 <= i < |batches| => Join(batches[i]))
  }

  ghost predicate AllMessages(batches: seq<seq<string>>) {
    forall i, j :: 0 <= i < |batches| && 0 <= j < |batches[i]| ==> IsMessage(batches[i][j])
  }

  lemma {:induction false} PayloadsSurvive(batches: seq<seq<string>>)
    requires AllMessages(batches)
    ensures ReceiveAll(Payloads(batches)) == Concat(batches)
  {
    if batches != [] {
      var front := batches[..|batches| - 1];
      forall i, j | 0 <= i < |front| && 0 <= j < |front[i]| ensures IsMessage(front[i][j]) {
        assert front[i] == batches[i];
      }
      PayloadsSurvive(front);
      assert Payloads(batches)[..|batches| - 1] == Payloads(front);
      BatchSurvives(batches[|batches| - 1]);
    }
  }

  /** One frame of several payloads comes back as all their messages in order. */
  lemma FrameSurvives(batches: seq<seq<string>>)
    requires batches != [] && AllMessages(batches)
    ensures Receive(Join(Payloads(batches))) == Concat(batches)
  {
    ReceiveJoined(Payloads(batches));
    PayloadsSurvive(batches);
  }

  /** The frames for a grouping of the queued batches. */
  function Frames(groups: seq<seq<seq<string>>>): seq<string> {
    seq(|groups|, i requires 0 <= i < |groups| => Join(Payloads(groups[i])))
  }

  function ConcatGroups(groups: seq<seq<seq<string>>>): seq<string> {
    if groups == [] then [] else ConcatGroups(groups[..|groups| - 1]) + Concat(groups[|groups| - 1])
  }

  /**
    Framing round trip: however the queued payloads are grouped into frames, including payloads
    that are already batches, the client gets back exactly the messages sent, in order.
  */
  lemma {:induction false} RoundTrip(groups: seq<seq<seq<string>>>)
    requires forall g :: 0 <= g < |groups| ==> groups[g] != [] && AllMessages(groups[g])
    ensures ReceiveAll(Frames(groups)) == ConcatGroups(groups)
  {
    if groups != [] {
      var front := groups[..|groups| - 1];
      RoundTrip(front);
      assert Frames(groups)[..|groups| - 1] == Frames(front);
      FrameSurvives(groups[|groups| - 1]);
    }
  }

  /** The grouping leaves no trace: groups flatten to the queue they were cut from. */
  lemma {:induction false} GroupingIsInvisible(groups: seq<seq<seq<string>>>)
    ensures ConcatGroups(groups) == Concat(Flatten(groups))
  {
    if groups != [] {
      GroupingIsInvisible(groups[..|groups| - 1]);
      ConcatSplits(Flatten(groups[..|groups| - 1]), groups[|groups| - 1]);
    }
  }

  function Flatten(groups: seq<seq<seq<string>>>): seq<seq<string>> {
    if groups == [] then [] else Flatten(groups[..|groups| - 1]) + groups[|groups| - 1]
  }

  lemma {:induction false} ConcatSplits(a: seq<seq<string>>, b: seq<seq<string>>)
    ensures Concat(a + b) == Concat(a) + Concat(b)
  {
    if b == [] {
      assert a + b == a;
    } else {
      var (front, last) := (b[..|b| - 1], b[|b| - 1]);
      ConcatSplits(a, front);
      assert (a + b)[..|a + b| - 1] == a + front;
    }
  }
}
