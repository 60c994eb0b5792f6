/**
  `multipart_t` of `zmq_addon.hpp`: a message of several parts, sent over a socket as frames
  that say whether more of the same message follow.
  */
module Multipart {
  type Part = seq<bv8>

  datatype Frame = Frame(part: Part, more: bool)

  // ---------- framing ----------

  /** The frames of one message: all but the last announce more. */
  function Frames(parts: seq<Part>): (fs: seq<Frame>)
    ensures |fs| == |parts|
    ensures forall i :: 0 <= i < |parts| ==> fs[i] == Frame(parts[i], i < |parts| - 1)
  {
    seq(|parts|, i requires 0 <= i < |parts| => Frame(parts[i], i < |parts| - 1))
  }

  function FramesOfAll(messages: seq<seq<Part>>): seq<Frame> {
    if messages == [] then [] else Frames(messages[0]) + FramesOfAll(messages[1..])
  }

  /** Up to and including the first frame that announces no more. */
  function FirstMessage(queue: seq<Frame>): (r: (seq<Part>, seq<Frame>, bool))
    ensures r.2 ==> |r.0| > 0 && |r.0| + |r.1| == |queue|
    ensures !r.2 ==> r.1 == [] && |r.0| == |queue|
  {
    if queue == [] then ([], [], false)
    else if !queue[0].more then ([queue[0].part], queue[1..], true)
    else
      var r := FirstMessage(queue[1..]);
      ([queue[0].part] + r.0, r.1, r.2)
  }

  /** The parts are those of the frames in front; a message is complete exactly if one of the
      frames announces no more, and the first such frame ends it. */
  lemma {:induction false} FirstMessageIs(queue: seq<Frame>)
    ensures var (parts, rest, ok) := FirstMessage(queue);
            && |parts| <= |queue| && (forall i :: 0 <= i < |parts| ==> parts[i] == queue[i].part)
            && rest == queue[|parts|..]
            && (ok <==> exists i :: 0 <= i < |queue| && !queue[i].more)
            && (ok ==> |parts| > 0 && !queue[|parts| - 1].more && forall i :: 0 <= i < |parts| - 1 ==> queue[i].more)
  {
    if queue != [] && queue[0].more {
      FirstMessageIs(queue[1..]);
      if i :| 0 <= i < |queue| && !queue[i].more {
        assert !queue[1..][i - 1].more;
      }
    }
  }

  /** All complete messages of a queue, and the frames of an incomplete one at the end. */
  function Messages(queue: seq<Frame>): (seq<seq<Part>>, seq<Frame>)
    decreases |queue|
  {
    var r := FirstMessage(queue);
    if !r.2 then ([], queue)
    else
      var rest := Messages(r.1);
      ([r.0] + rest.0, rest.1)
  }

  lemma {:induction false} FirstOfFrames(parts: seq<Part>, rest: seq<Frame>)
    requires parts != []
    ensures FirstMessage(Frames(parts) + rest) == (parts, rest, true)
  {
    var q := Frames(parts) + rest;
    if |parts| == 1 {
      assert q[1..] == rest;
      assert [parts[0]] == parts;
    } else {
      assert Frames(parts)[1..] == Frames(parts[1..]);
      assert q[1..] == Frames(parts[1..]) + rest;
      FirstOfFrames(parts[1..], rest);
      assert [parts[0]] + parts[1..] == parts;
    }
  }

  /** The messages that have a part. */
  function WithParts(messages: seq<seq<Part>>): (r: seq<seq<Part>>)
    ensures |r| <= |messages|
  {
    if messages == [] then []
    else if messages[0] == [] then WithParts(messages[1..])
    else [messages[0]] + WithParts(messages[1..])
  }

  /** Reading a queue of messages gives back, in order, exactly those that have a part: an
      empty message sends no frame. */
  lemma {:induction false} MessagesArrive(messages: seq<seq<Part>>)
    ensures Messages(FramesOfAll(messages)) == (WithParts(messages), [])
  {
    if messages != [] {
      MessagesArrive(messages[1..]);
      if messages[0] == [] {
        assert FramesOfAll(messages) == FramesOfAll(messages[1..]);
      } else {
        FirstOfFrames(messages[0], FramesOfAll(messages[1..]));
      }
    }
  }

  lemma {:induction false} WithPartsIff(messages: seq<seq<Part>>)
    ensures WithParts(messages) == messages <==> forall i :: 0 <= i < |messages| ==> messages[i] != []
  {
    if messages != [] {
      var rest := messages[1..];
      WithPartsIff(rest);
      if messages[0] == [] {
        assert |WithParts(messages)| < |messages|;
      } else {
        assert WithParts(messages)[1..] == WithParts(rest) && messages == [messages[0]] + rest;
        assert forall i :: 0 < i < |messages| ==> messages[i] == rest[i - 1];
        assert forall i :: 0 <= i < |rest| ==> rest[i] == messages[i + 1];
      }
    }
  }

  /** So messages come back as they were, if and only if none of them is empty. */
  lemma MessagesRoundTripIff(messages: seq<seq<Part>>)
    ensures Messages(FramesOfAll(messages)) == (messages, []) <==> forall i :: 0 <= i < |messages| ==> messages[i] != []
  {
    MessagesArrive(messages);
    WithPartsIff(messages);
  }

  lemma {:induction false} FramesOfAllAppend(a: seq<seq<Part>>, b: seq<seq<Part>>)
    ensures FramesOfAll(a + b) == FramesOfAll(a) + FramesOfAll(b)
  {
    if a == [] {
      assert a + b == b;
    } else {
      assert (a + b)[1..] == a[1..] + b;
      FramesOfAllAppend(a[1..], b);
    }
  }

  lemma FramesUpTo(messages: seq<seq<Part>>, i: nat)
    requires i < |messages|
    ensures FramesOfAll(messages[..i + 1]) == FramesOfAll(messages[..i]) + Frames(messages[i])
    ensures |FramesOfAll(messages[..i + 1])| <= |FramesOfAll(messages)|
  {
    FramesOfAllAppend(messages[..i], [messages[i]]);
    assert messages[..i + 1] == messages[..i] + [messages[i]];
    assert FramesOfAll([messages[i]]) == Frames(messages[i]) + FramesOfAll([]);
    FramesOfAllAppend(messages[..i + 1], messages[i + 1..]);
    assert messages == messages[..i + 1] + messages[i + 1..];
  }

  /** A message whose sending broke off half-way is glued to the next one: the receiver sees
      its first parts in front of that message's parts. */
  lemma {:induction false} BrokenMessageIsGlued(broken: seq<Part>, k: nat, next: seq<Part>, rest: seq<Frame>)
    requires k < |broken| && next != []
    ensures FirstMessage(Frames(broken)[..k] + (Frames(next) + rest)) == (broken[..k] + next, rest, true)
  {
    if k == 0 {
      assert Frames(broken)[..0] + (Frames(next) + rest) == Frames(next) + rest;
      assert broken[..0] + next == next;
      FirstOfFrames(next, rest);
    } else {
      assert Frames(broken)[1..] == Frames(broken[1..]);
      CutOff(Frames(broken), k, Frames(next) + rest);
      BrokenMessageIsGlued(broken[1..], k - 1, next, rest);
      CutOff(broken, k, next);
    }
  }

  lemma CutOff<T>(s: seq<T>, k: nat, r: seq<T>)
    requires 0 < k <= |s|
    ensures s[..k] + r == [s[0]] + (s[1..][..k - 1] + r)
    ensures (s[..k] + r)[0] == s[0] && (s[..k] + r)[1..] == s[1..][..k - 1] + r
  {
  }

  // ---------- the code ----------

  /** A socket as a queue of frames; `capacity` frames are accepted before it refuses. */
  class Socket {
    var queue: seq<Frame>
    var capacity: nat

    constructor (capacity: nat)
      ensures queue == [] && this.capacity == capacity
    {
      queue, this.capacity := [], capacity;
    }

    method Send(f: Frame) returns (ok: bool)
      modifies this
      ensures ok <==> old(capacity) > 0
      ensures ok ==> queue == old(queue) + [f] && capacity == old(capacity) - 1
      ensures !ok ==> queue == old(queue) && capacity == old(capacity)
    {
      ok := capacity > 0;
      if ok {
        queue, capacity := queue + [f], capacity - 1;
      }
    }

    method Recv() returns (f: Frame, ok: bool)
      modifies this`queue
      ensures ok <==> old(queue) != []
      ensures ok ==> f == old(queue)[0] && queue == old(queue)[1..]
      ensures !ok ==> queue == old(queue)
    {
      ok := queue != [];
      f := Frame([], false);
      if ok {
        f, queue := queue[0], queue[1..];
      }
    }
  }

  /** The first message when some of its parts were already read. */
  function Behind(parts: seq<Part>, frames: seq<Frame>): (seq<Part>, seq<Frame>, bool) {
    (parts + FirstMessage(frames).0, FirstMessage(frames).1, FirstMessage(frames).2)
  }

  lemma BehindNext(parts: seq<Part>, frames: seq<Frame>)
    ensures Behind(parts, frames) ==
            if frames == [] then (parts, [], false)
            else if frames[0].more then Behind(parts + [frames[0].part], frames[1..])
            else (parts + [frames[0].part], frames[1..], true)
  {
    assert parts + [] == parts;
    if frames != [] && frames[0].more {
      var rest := FirstMessage(frames[1..]).0;
      assert parts + ([frames[0].part] + rest) == parts + [frames[0].part] + rest;
    }
  }

  class Message {
    var parts: seq<Part>

    constructor ()
      ensures parts == []
    {
      parts := [];
    }

    method Add(part: Part)
      modifies this
      ensures parts == old(parts) + [part]
    {
      parts := parts + [part];
    }

    method Push(part: Part)
      modifies this
      ensures parts == [part] + old(parts)
    {
      parts := [part] + parts;
    }

    method Pop() returns (part: Part)
      requires parts != []
      modifies this
      ensures part == old(parts)[0] && parts == old(parts)[1..]
    {
      part, parts := parts[0], parts[1..];
    }

    method Remove() returns (part: Part)
      requires parts != []
      modifies this
      ensures part == old(parts)[|old(parts)| - 1] && parts == old(parts)[..|old(parts)| - 1]
    {
      part, parts := parts[|parts| - 1], parts[..|parts| - 1];
    }

    /** `send`: the whole message goes out, or the frames the socket took before it refused;
        the part it refused is gone from the message as well. */
    method Send(socket: Socket) returns (ok: bool)
      modifies this, socket
      ensures ok <==> old(|parts|) <= old(socket.capacity)
      ensures ok ==> parts == [] && socket.queue == old(socket.queue) + Frames(old(parts))
      ensures ok ==> socket.capacity == old(socket.capacity) - old(|parts|)
      ensures !ok ==> var k := old(socket.capacity);
                      && socket.queue == old(socket.queue) + Frames(old(parts))[..k]
                      && parts == old(parts)[k + 1..]
    {
      ghost var fs, k := Frames(parts), 0;
      assert fs[..0] == [];
      var more := |parts| > 0;
      while more
        invariant 0 <= k <= |fs| == old(|parts|) && more == (|parts| > 0)
        invariant parts == old(parts)[k..]
        invariant socket.queue == old(socket.queue) + fs[..k] && socket.capacity + k == old(socket.capacity)
        decreases |parts|
      {
        var part := Pop();
        more := |parts| > 0;
        ok := socket.Send(Frame(part, more));
        if !ok {
          return;
        }
        assert fs[..k + 1] == fs[..k] + [fs[k]];
        k := k + 1;
      }
      assert fs[..|fs|] == fs;
      parts := [];
      ok := true;
    }

    /** `recv`: the first message of the queue, or what there is of it. */
    method Recv(socket: Socket) returns (ok: bool)
      modifies this, socket`queue
      ensures ok == FirstMessage(old(socket.queue)).2
      ensures parts == FirstMessage(old(socket.queue)).0
      ensures socket.queue == FirstMessage(old(socket.queue)).1
    {
      parts := [];
      var more := true;
      ghost var first := FirstMessage(socket.queue);
      assert [] + first.0 == first.0;
      while more
        invariant first == if more then Behind(parts, socket.queue) else (parts, socket.queue, true)
        decreases more, |socket.queue|
      {
        var f;
        BehindNext(parts, socket.queue);
        f, ok := socket.Recv();
        if !ok {
          return;
        }
        more := f.more;
        Add(f.part);
      }
      ok := true;
    }

    /** `append`: the other message's parts come behind, and it is left empty. */
    method Append(other: Message)
      requires other != this
      modifies this, other
      ensures parts == old(parts) + old(other.parts) && other.parts == []
    {
      while other.parts != []
        invariant parts + other.parts == old(parts) + old(other.parts)
        decreases |other.parts|
      {
        var part := other.Pop();
        Add(part);
      }
    }

    /** `prepend`: the other message's parts come in front, in their order. */
    method Prepend(other: Message)
      requires other != this
      modifies this, other
      ensures parts == old(other.parts) + old(parts) && other.parts == []
    {
      while other.parts != []
        invariant other.parts + parts == old(other.parts) + old(parts)
        decreases |other.parts|
      {
        var part := other.Remove();
        Push(part);
      }
    }
  }

  /** Sends messages one after another and then receives as many: they arrive as sent. */
  method Transmit(messages: seq<seq<Part>>, capacity: nat) returns (received: seq<seq<Part>>)
    requires forall i :: 0 <= i < |messages| ==> messages[i] != []
    requires |FramesOfAll(messages)| <= capacity
    ensures received == messages
  {
    var socket := new Socket(capacity);
    var m := new Message();
    assert messages[..0] == [];
    for i := 0 to |messages|
      invariant socket.queue == FramesOfAll(messages[..i])
      invariant socket.capacity + |socket.queue| == capacity
    {
      m.parts := messages[i];
      FramesUpTo(messages, i);
      var ok := m.Send(socket);
    }
    assert messages[..|messages|] == messages;
    received := [];
    for i := 0 to |messages|
      invariant received == messages[..i] && socket.queue == FramesOfAll(messages[i..])
    {
      FirstOfFrames(messages[i], FramesOfAll(messages[i + 1..]));
      assert messages[i..][1..] == messages[i + 1..];
      var ok := m.Recv(socket);
      received := received + [m.parts];
    }
  }
}
