/** Messages of a child process: bytes are read from a pipe in whatever pieces they come, and are
    taken out of a buffer up to a terminator.
 */
module ChildCom {
  import opened Options

  // ---------------------------------------------------------------- messages in a stream

  function IndexOf(s: string, c: char): (n: nat)
    ensures n <= |s| && (n < |s| ==> s[n] == c)
    ensures forall i :: 0 <= i < n ==> s[i] != c
  {
    if s == "" || s[0] == c then 0 else 1 + IndexOf(s[1..], c)
  }

  /** The messages that end in a stream, each with its terminator. */
  function Messages(s: string, c: char): (ms: seq<string>)
    decreases |s|
  {
    var n := IndexOf(s, c);
    if n == |s| then [] else [s[..n + 1]] + Messages(s[n + 1..], c)
  }

  /** What follows the last terminator. */
  function Unfinished(s: string, c: char): string
    decreases |s|
  {
    var n := IndexOf(s, c);
    if n == |s| then s else Unfinished(s[n + 1..], c)
  }

  function Joined(ms: seq<string>): string {
    if ms == [] then "" else ms[0] + Joined(ms[1..])
  }

  lemma JoinedCons(first: string, ms: seq<string>)
    ensures Joined([first] + ms) == first + Joined(ms)
  {
    assert ([first] + ms)[1..] == ms;
  }

  lemma CoverStep(s: string, n: nat, ms: seq<string>, unfinished: string)
    requires n <= |s| && Joined(ms) + unfinished == s[n..]
    ensures Joined([s[..n]] + ms) + unfinished == s
  {
    JoinedCons(s[..n], ms);
    Associate(s[..n], Joined(ms), unfinished);
    assert s == s[..n] + s[n..];
  }

  /** Messages and what follows them are the stream. */
  lemma {:induction false} MessagesCover(s: string, c: char)
    ensures Joined(Messages(s, c)) + Unfinished(s, c) == s
    decreases |s|
  {
    var n := IndexOf(s, c);
    if n < |s| {
      var rest := s[n + 1..];
      MessagesCover(rest, c);
      CoverStep(s, n + 1, Messages(rest, c), Unfinished(rest, c));
    } else {
      assert Messages(s, c) == [] && Unfinished(s, c) == s;
    }
  }

  lemma {:induction false} IndexOfIs(s: string, c: char, n: nat)
    requires n < |s| && s[n] == c && forall i :: 0 <= i < n ==> s[i] != c
    ensures IndexOf(s, c) == n
  {
    if n > 0 {
      IndexOfIs(s[1..], c, n - 1);
    }
  }

  /** Taking the first message from the front of a stream leaves the others. */
  lemma MessagesStep(buffered: string, rest: string, c: char, n: nat)
    requires n < |buffered| && buffered[n] == c && forall i :: 0 <= i < n ==> buffered[i] != c
    ensures Messages(buffered + rest, c) == [buffered[..n + 1]] + Messages(buffered[n + 1..] + rest, c)
  {
    var s := buffered + rest;
    IndexOfIs(s, c, n);
    assert s[..n + 1] == buffered[..n + 1] && s[n + 1..] == buffered[n + 1..] + rest;
  }

  // ---------------------------------------------------------------- messages that a buffer can hold

  /** The messages in front of the first that is longer than the buffer. */
  function Fitting(ms: seq<string>, size: nat): (r: seq<string>)
    ensures r <= ms
  {
    if ms == [] || |ms[0]| > size then [] else [ms[0]] + Fitting(ms[1..], size)
  }

  lemma {:induction false} FittingAllIff(ms: seq<string>, size: nat)
    ensures Fitting(ms, size) == ms <==> forall i :: 0 <= i < |ms| ==> |ms[i]| <= size
    decreases |ms|
  {
    if ms != [] {
      FittingAllIff(ms[1..], size);
      assert ms == [ms[0]] + ms[1..];
      assert (forall i :: 0 <= i < |ms| ==> |ms[i]| <= size) ==>
        forall i :: 0 <= i < |ms[1..]| ==> |ms[1..][i]| <= size;
    }
  }

  lemma FittingCons(m: string, ms: seq<string>, size: nat)
    requires |m| <= size
    ensures Fitting([m] + ms, size) == [m] + Fitting(ms, size)
  {
    assert ([m] + ms)[1..] == ms;
  }

  /** Without a terminator in a buffer that is full, or behind which nothing comes, no message
      can be delivered. */
  lemma NoneFits(buffered: string, rest: string, c: char, size: nat)
    requires IndexOf(buffered, c) == |buffered| && (|buffered| == size || rest == "")
    ensures Fitting(Messages(buffered + rest, c), size) == []
  {
    var s := buffered + rest;
    var n := IndexOf(s, c);
    if n < |s| {
      assert forall i :: 0 <= i < |buffered| ==> s[i] == buffered[i];
      assert |Messages(s, c)[0]| == n + 1;
    }
  }

  // ---------------------------------------------------------------- the buffer

  /** Bytes can be read. */
  predicate Ready(event: Event) {
    !event.hangup && event.readable && event.outcome.Got? && event.outcome.most > 0
  }

  /** Nothing is wrong with the child or the pipe. */
  predicate Harmless(event: Event) {
    !event.hangup && !event.outcome.Failed? && event.alive
  }

  function Alone(message: Option<string>): seq<string> {
    if message == None then [] else [message.value]
  }

  /** The pipe is hung up. */
  predicate Gone(events: seq<Event>) {
    forall i :: 0 <= i < |events| ==> events[i].hangup
  }

  /** How often bytes can be read. */
  function ReadyCount(events: seq<Event>): nat {
    if events == [] then 0 else (if Ready(events[0]) then 1 else 0) + ReadyCount(events[1..])
  }

  predicate FirstAt(s: string, n: nat) {
    n < |s| && forall i :: 0 <= i < n ==> s[i] != s[n]
  }

  /** What polling the pipe reports, and what a read would do: it fails, is interrupted, or takes
      at most so many bytes. */
  datatype Outcome = Failed | Interrupted | Got(most: nat)

  datatype Event = Event(hangup: bool, readable: bool, outcome: Outcome, alive: bool)

  lemma ConcatMoved(before: string, pipe: string, n: nat)
    requires n <= |pipe|
    ensures before + pipe[..n] + pipe[n..] == before + pipe
  {
  }

  lemma ConcatFront(buffered: string, size: nat, pipe: string)
    requires size <= |buffered|
    ensures buffered[..size] + (buffered[size..] + pipe) == buffered + pipe
  {
  }

  class ChildCom {
    const buffer: array<char>
    var used: nat
    var cachedTerminator: Option<nat>
    var bad: bool

    // what is still in the pipe
    var pipe: string

    constructor (bufferSize: nat, pipe: string)
      ensures Valid() && Buffered() == "" && this.pipe == pipe && !bad && fresh(buffer)
      ensures buffer.Length == bufferSize
    {
      buffer := new char[bufferSize](i => ' ');
      used, cachedTerminator, bad := 0, None, false;
      this.pipe := pipe;
    }

    /** A cached terminator is the first of its character. */
    ghost predicate Valid()
      reads this, buffer
    {
      && used <= buffer.Length
      && (cachedTerminator.Some? ==>
            cachedTerminator.value < used && FirstAt(buffer[..used], cachedTerminator.value))
    }

    ghost function Buffered(): string
      requires used <= buffer.Length
      reads this, buffer
    {
      buffer[..used]
    }

    /** The message whose terminator is cached, if it is this one. */
    ghost function Cached(terminator: char): (r: Option<string>)
      requires Valid()
      reads this, buffer
      ensures r.Some? ==> r.value <= Buffered()
    {
      if cachedTerminator.Some? && buffer[cachedTerminator.value] == terminator then
        Some(buffer[..cachedTerminator.value + 1])
      else None
    }

    /** What is left of the stream: first the bytes in the buffer, then those in the pipe. */
    ghost function Stream(): string
      requires used <= buffer.Length
      reads this, buffer
    {
      Buffered() + pipe
    }

    /** The `read` system call, behind what is used. */
    method ReadPipe(most: nat)
      requires Valid()
      modifies this`used, this`pipe, buffer
      ensures Valid() && Stream() == old(Stream()) && old(Buffered()) <= Buffered()
      ensures |pipe| <= |old(pipe)|
      ensures most > 0 && old(used) < buffer.Length && old(pipe) != "" ==> |pipe| < |old(pipe)|
    {
      var tmp := most;
      if tmp > buffer.Length - used {
        tmp := buffer.Length - used;
      }
      if tmp > |pipe| {
        tmp := |pipe|;
      }
      var i := 0;
      while i < tmp
        invariant i <= tmp && used == old(used) && pipe == old(pipe)
        invariant buffer[..used + i] == old(Buffered()) + pipe[..i]
      {
        buffer[used + i] := pipe[i];
        i := i + 1;
      }
      ConcatMoved(old(Buffered()), pipe, tmp);
      used := used + tmp;
      pipe := pipe[tmp..];
      assert Buffered() == old(Buffered()) + old(pipe)[..tmp];
    }

    /** `child_com_read` */
    method Read(event: Event) returns (n: nat)
      requires Valid()
      modifies this`used, this`pipe, this`bad, buffer
      ensures Valid() && Stream() == old(Stream()) && old(Buffered()) <= Buffered()
      ensures old(bad) || event.hangup ==> bad
      ensures n == used || (n == 0 && bad)
      ensures Harmless(event) && !old(bad) ==> !bad
      ensures |pipe| <= |old(pipe)|
      ensures Ready(event) && old(used) < buffer.Length && old(pipe) != "" ==> |pipe| < |old(pipe)|
    {
      if event.hangup {
        bad := true;
        return 0;
      }
      if event.readable && used < buffer.Length {
        match event.outcome
        case Failed =>
          bad := true;
          return 0;
        case Interrupted =>
        case Got(most) => ReadPipe(most);
      } else if !event.alive {
        bad := true;
        return 0;
      }
      return used;
    }

    /** `memchr` in the used part. */
    method FindFirst(c: char) returns (at: Option<nat>)
      requires used <= buffer.Length
      ensures at.Some? ==> at.value < used && buffer[..used][at.value] == c && FirstAt(buffer[..used], at.value)
      ensures at == None ==> forall i :: 0 <= i < used ==> buffer[..used][i] != c
    {
      var i := 0;
      while i < used
        invariant i <= used && forall j :: 0 <= j < i ==> buffer[j] != c
      {
        if buffer[i] == c {
          return Some(i);
        }
        i := i + 1;
      }
      return None;
    }

    /** `child_com_gather`: how long the first message is, with its terminator; 0 if it has none
        yet, or if the child is gone. */
    method Gather(terminator: char, event: Event) returns (ret: nat)
      requires Valid()
      modifies this`used, this`pipe, this`bad, this`cachedTerminator, buffer
      ensures Valid() && Stream() == old(Stream()) && old(Buffered()) <= Buffered()
      ensures ret > 0 ==> ret <= used && IndexOf(Buffered(), terminator) == ret - 1 < |Buffered()|
      ensures ret == 0 ==> bad || IndexOf(Buffered(), terminator) == |Buffered()|
      ensures Harmless(event) && !old(bad) ==> !bad
      ensures |pipe| <= |old(pipe)|
      ensures ret == 0 && Ready(event) && old(used) < buffer.Length && old(pipe) != "" ==> |pipe| < |old(pipe)|
      ensures old(Cached(terminator)).Some? ==>
        0 < ret <= used && Buffered()[..ret] == old(Cached(terminator)).value && bad == old(bad)
      ensures old(Cached(terminator)) == None && (old(bad) || event.hangup) ==>
        ret == 0 && bad && Cached(terminator) == None
    {
      if cachedTerminator.Some? && buffer[cachedTerminator.value] == terminator {
        IndexOfIs(Buffered(), terminator, cachedTerminator.value);
        return cachedTerminator.value + 1;
      }
      ghost var before := Buffered();
      var n := Read(event);
      assert cachedTerminator.Some? ==> Buffered()[cachedTerminator.value] == before[cachedTerminator.value];
      if bad {
        return 0;
      }
      if used != 0 {
        cachedTerminator := FindFirst(terminator);
      }
      if cachedTerminator.Some? {
        IndexOfIs(Buffered(), terminator, cachedTerminator.value);
        return cachedTerminator.value + 1;
      }
      return 0;
    }

    /** `child_com_recv`: exactly so many bytes from the front, or none and how many there are. */
    method Recv(size: nat, event: Event) returns (ret: nat, data: string)
      requires Valid() && size > 0
      modifies this`used, this`pipe, this`bad, this`cachedTerminator, buffer
      ensures Valid() && (old(bad) ==> bad)
      ensures if ret == size then |data| == size && data + Stream() == old(Stream())
        else data == "" && Stream() == old(Stream()) && old(Buffered()) <= Buffered() && (ret == used < size || bad)
      ensures size <= |old(Buffered())| ==>
        ret == size && data == old(Buffered())[..size] && Buffered() == old(Buffered())[size..] && pipe == old(pipe)
      ensures ret == size ==> cachedTerminator == None
      ensures size <= |old(Buffered())| ==> bad == old(bad)
    {
      data := "";
      if size > used {
        var n := Read(event);
        if bad {
          return 0, "";
        }
        if size > used {
          return used, "";
        }
      }
      data := TakeFront(size);
      ret := size;
    }

    method TakeFront(size: nat) returns (data: string)
      requires Valid() && 0 < size <= used
      modifies this`used, this`cachedTerminator, buffer
      ensures Valid() && cachedTerminator == None
      ensures data == old(Buffered())[..size] && Buffered() == old(Buffered())[size..]
      ensures data + Stream() == old(Stream())
    {
      ConcatFront(Buffered(), size, pipe);
      data := buffer[..size];
      if size < used {
        MoveDown(size);
      } else {
        assert size == used;
        used := 0;
      }
      cachedTerminator := None;
    }

    /** `memmove` to the front. */
    method MoveDown(size: nat)
      requires 0 < size < used <= buffer.Length
      modifies this`used, buffer
      ensures used == old(used) - size && buffer[..used] == old(buffer[..used])[size..]
    {
      var i := 0;
      while i < used - size
        invariant i <= used - size && used == old(used)
        invariant forall j :: 0 <= j < i ==> buffer[j] == old(buffer[j + size])
        invariant forall j :: i <= j < buffer.Length ==> buffer[j] == old(buffer[j])
      {
        buffer[i] := buffer[i + size];
        i := i + 1;
      }
      used := used - size;
    }

    /** A gather, and if it finds a message the recv that takes it. A read that can get bytes
        brings the next message nearer, unless no further one fits the buffer. */
    method Turn(terminator: char, event: Event) returns (message: Option<string>)
      requires Valid()
      modifies this`used, this`pipe, this`bad, this`cachedTerminator, buffer
      ensures Valid() && (Harmless(event) && !old(bad) ==> !bad)
      ensures message == None ==> Stream() == old(Stream()) && (bad || IndexOf(Buffered(), terminator) == used)
      ensures message == None && !bad && Ready(event) ==>
        |pipe| < |old(pipe)| || Fitting(Messages(Stream(), terminator), buffer.Length) == []
      ensures |pipe| <= |old(pipe)|
      ensures message.Some? ==> old(Stream()) == message.value + Stream() && |message.value| <= buffer.Length
      ensures message.Some? ==>
        Messages(old(Stream()), terminator) == [message.value] + Messages(Stream(), terminator)
      ensures old(bad) || event.hangup ==>
        message == old(Cached(terminator)) && Cached(terminator) == None && (old(bad) ==> bad)
    {
      var n := Gather(terminator, event);
      if n == 0 {
        if !bad && (used == buffer.Length || pipe == "") {
          NoneFits(Buffered(), pipe, terminator, buffer.Length);
        }
        return None;
      }
      MessagesStep(Buffered(), pipe, terminator, n - 1);
      var ret, data := Recv(n, event);
      message := Some(data);
    }

    /** Gathering and receiving in turns. Whatever each poll and each read gives, the messages
        received, then those of the bytes that are left, are the messages of the stream. And as
        long as nothing goes wrong, so many reads that can get bytes are enough to receive every
        message in front of the first that is longer than the buffer, and none behind it is ever
        received. Once the pipe is hung up or the child is gone, only a message whose terminator
        is cached is still received, whatever the buffer holds. */
    method ReceiveAll(terminator: char, events: seq<Event>) returns (messages: seq<string>)
      requires Valid()
      modifies this`used, this`pipe, this`bad, this`cachedTerminator, buffer
      ensures Valid()
      ensures Messages(old(Stream()), terminator) == messages + Messages(Stream(), terminator)
      ensures Joined(messages) + Stream() == old(Stream())
      ensures !old(bad) && Enough(events, Messages(old(Stream()), terminator), |old(pipe)|, buffer.Length) ==>
        !bad && messages == Fitting(Messages(old(Stream()), terminator), buffer.Length)
      ensures messages <= Fitting(Messages(old(Stream()), terminator), buffer.Length)
      ensures old(bad) || Gone(events) ==> messages == if events == [] then [] else Alone(old(Cached(terminator)))
      decreases |events|
    {
      if events == [] {
        return [];
      }
      ghost var before, whole := Stream(), Messages(Stream(), terminator);
      var message := Turn(terminator, events[0]);
      ghost var left := Messages(Stream(), terminator);
      if !old(bad) && Enough(events, whole, |old(pipe)|, buffer.Length) {
        StillEnough(events, whole, message, left, |old(pipe)|, |pipe|, buffer.Length);
      }
      assert Gone(events) ==> Gone(events[1..]);
      var rest := ReceiveAll(terminator, events[1..]);
      messages := Alone(message) + rest;
      Received(message, rest, messages, whole, left, Messages(Stream(), terminator), before, Stream(), buffer.Length);
    }
  }

  /** Nothing goes wrong, and bytes can be read as often as there are messages in the stream and
      bytes in the pipe, unless nothing is to be received. */
  predicate Enough(events: seq<Event>, messages: seq<string>, inPipe: nat, size: nat) {
    && (forall i :: 0 <= i < |events| ==> Harmless(events[i]))
    && (ReadyCount(events) >= |messages| + inPipe || Fitting(messages, size) == [])
  }

  lemma StillEnough(events: seq<Event>, whole: seq<string>, got: Option<string>, left: seq<string>,
                    inPipe: nat, inPipe': nat, size: nat)
    requires events != [] && Enough(events, whole, inPipe, size) && inPipe' <= inPipe
    requires got.Some? ==> whole == [got.value] + left && |got.value| <= size
    requires got == None ==> left == whole && (Ready(events[0]) ==> inPipe' < inPipe || Fitting(left, size) == [])
    ensures Enough(events[1..], left, inPipe', size)
  {
    if got.Some? {
      FittingCons(got.value, left, size);
    }
  }

  lemma Associate(a: string, b: string, c: string)
    ensures a + b + c == a + (b + c)
  {
  }

  lemma Received(message: Option<string>, rest: seq<string>, all: seq<string>, whole: seq<string>, left: seq<string>,
                 behind: seq<string>, before: string, after: string, size: nat)
    requires all == Alone(message) + rest && left == rest + behind && rest <= Fitting(left, size)
    requires message == None ==> whole == left && before == Joined(rest) + after
    requires message.Some? ==> whole == [message.value] + left && |message.value| <= size
    requires message.Some? ==> before == message.value + (Joined(rest) + after)
    ensures whole == all + behind && Joined(all) + after == before
    ensures Fitting(whole, size) == Alone(message) + Fitting(left, size) && all <= Fitting(whole, size)
    ensures rest == [] ==> all == Alone(message)
  {
    if message.Some? {
      FittingCons(message.value, left, size);
      JoinedCons(message.value, rest);
      Associate(message.value, Joined(rest), after);
      AssociateMessages([message.value], rest, behind);
    } else {
      assert all == rest;
    }
  }

  lemma AssociateMessages(a: seq<string>, b: seq<string>, c: seq<string>)
    ensures a + (b + c) == a + b + c
  {
  }
}
