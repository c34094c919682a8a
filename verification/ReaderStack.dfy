/**
 Decompressing an archive: the member walk of internal/gzipstream/gzipstream.go
 and the limit over it, decompressedLimitReader of
 internal/galaxy/archive/archive.go:98-128.

 The decompressor is an object with a protocol: with its own member loop turned
 off it ends a member with io.EOF and no bytes, and must not be read again before
 Reset and Multistream(false). Its chunks may be of any size, none included. A
 canceled context shows as a member that breaks off.
 */
module ReaderStack {
  import opened Wrappers

  type Bytes = seq<bv8>

  // What a Read may report besides bytes.
  datatype Verdict = EndOfFile | Broken(why: string) | EmptyMember | OverLimit

  // A gzip member ends cleanly, or the stream breaks in it.
  datatype Member = Member(data: Bytes, fault: Option<string>)

  // The members, and what Reset says where the last one ends.
  datatype Stream = Stream(members: seq<Member>, tail: Option<string>)

  // ------------------------------------------------- what a stream holds

  // The concatenated members up to the first empty or broken one, and the
  // verdict there (section 2.2 of RFC 1952 for the concatenation).
  function Data(members: seq<Member>): Bytes {
    if members == [] then []
    else members[0].data + if Stops(members[0]) then [] else Data(members[1..])
  }

  predicate Stops(m: Member) { m.fault.Some? || m.data == [] }

  function Reported(fault: Option<string>): Verdict {
    match fault
    case None => EndOfFile
    case Some(why) => Broken(why)
  }

  function End(members: seq<Member>, tail: Option<string>): Verdict {
    if members == [] then Reported(tail)
    else if members[0].fault.Some? then Reported(members[0].fault)
    else if members[0].data == [] then EmptyMember
    else End(members[1..], tail)
  }

  // No member before the index stops the walk.
  ghost predicate Passed(members: seq<Member>, n: nat) {
    n <= |members| && forall i: nat :: i < n ==> !Stops(members[i])
  }

  function Joined(members: seq<Member>): Bytes {
    if members == [] then [] else Joined(members[..|members| - 1]) + members[|members| - 1].data
  }

  lemma {:induction false} JoinedFirst(members: seq<Member>)
    requires members != []
    ensures Joined(members) == members[0].data + Joined(members[1..])
  {
    if |members| > 1 {
      JoinedFirst(members[..|members| - 1]);
      assert members[..|members| - 1][1..] == members[1..][..|members| - 2];
    }
  }

  lemma PassedTail(members: seq<Member>, n: nat)
    requires n > 0 && Passed(members, n)
    ensures !Stops(members[0]) && Passed(members[1..], n - 1)
    ensures members[1..][n - 1..] == members[n..]
  {
    forall i: nat | i < n - 1 ensures !Stops(members[1..][i]) {
      assert members[1..][i] == members[i + 1];
    }
  }

  lemma {:induction false} DataSplits(members: seq<Member>, n: nat)
    requires Passed(members, n)
    ensures Data(members) == Joined(members[..n]) + Data(members[n..])
  {
    if n == 0 {
      assert members[n..] == members;
    } else {
      PassedTail(members, n);
      DataSplits(members[1..], n - 1);
      JoinedFirst(members[..n]);
      assert members[..n][1..] == members[1..][..n - 1];
    }
  }

  lemma {:induction false} EndSplits(members: seq<Member>, tail: Option<string>, n: nat)
    requires Passed(members, n)
    ensures End(members, tail) == End(members[n..], tail)
  {
    if n == 0 {
      assert members[n..] == members;
    } else {
      PassedTail(members, n);
      EndSplits(members[1..], tail, n - 1);
    }
  }

  /** What a stream yields, by its first member that stops the walk: an empty clean
      one is refused, a broken one ends it with what it had, and past the last member
      it ends as the stream does. */
  lemma StreamMeans(members: seq<Member>, tail: Option<string>, n: nat)
    requires Passed(members, n)
    ensures n == |members| ==> Data(members) == Joined(members) && End(members, tail) == Reported(tail)
    ensures n < |members| && members[n].fault.Some? ==>
              && Data(members) == Joined(members[..n]) + members[n].data
              && End(members, tail) == Reported(members[n].fault)
    ensures n < |members| && members[n].fault.None? && members[n].data == [] ==>
              Data(members) == Joined(members[..n]) && End(members, tail) == EmptyMember
  {
    DataSplits(members, n);
    EndSplits(members, tail, n);
    if n == |members| {
      assert members[n..] == [] && members[..n] == members;
    } else {
      assert members[n..][0] == members[n];
    }
  }

  // ------------------------------------------------------ the decompressor

  // What pgzip does with the chunk sizes and pauses of one call.
  datatype Chunk = Chunk(size: nat, pause: bool)

  // A call that does what it can: no pause, and some bytes if there are any.
  predicate Busy(chunk: Chunk) { chunk.size > 0 && !chunk.pause }

  ghost predicate AllBusy(chunks: nat -> Chunk) { forall k: nat :: Busy(chunks(k)) }

  class Decompressor {
    const stream: Stream
    var at: nat
    var pos: nat
    var ended: bool       // the end of the member was reported
    var multistream: bool

    ghost predicate Valid()
      reads this
    {
      at < |stream.members| && pos <= |stream.members[at].data| && (ended ==> pos == |stream.members[at].data|)
    }

    // Opened on the first member's header.
    constructor (stream: Stream)
      requires stream.members != []
      ensures Valid() && this.stream == stream && at == 0 && pos == 0 && !ended && multistream
    {
      this.stream := stream;
      at, pos, ended, multistream := 0, 0, false, true;
    }

    method Multistream(on: bool)
      modifies this`multistream
      ensures multistream == on
    {
      multistream := on;
    }

    // The protocol: never past a reported end, never with its own member loop.
    method Read(want: nat, chunk: Chunk) returns (out: Bytes, verdict: Option<Verdict>)
      requires Valid() && !ended && !multistream
      modifies this`pos, this`ended
      ensures Valid() && |out| <= want && pos == old(pos) + |out|
      ensures out == stream.members[at].data[old(pos)..pos]
      ensures verdict.Some? == ended && (ended ==> out == [])
      ensures ended ==> verdict.value == Reported(stream.members[at].fault)
      ensures want > 0 && Busy(chunk) ==> out != [] || verdict.Some?
    {
      var data := stream.members[at].data;
      var n := if chunk.size < want then chunk.size else want;
      if n > |data| - pos { n := |data| - pos; }
      if n > 0 || pos < |data| || chunk.pause {
        out := data[pos..pos + n];
        pos := pos + n;
        return out, None;
      }
      ended := true;
      return [], Some(Reported(stream.members[at].fault));
    }

    // On to the next member, which turns the member loop on again.
    method Reset() returns (verdict: Option<Verdict>)
      requires Valid() && ended
      modifies this
      ensures Valid()
      ensures verdict.None? ==> at == old(at) + 1 && pos == 0 && !ended
      ensures verdict.None? == (old(at) + 1 < |stream.members|)
      ensures verdict.Some? ==> verdict == Some(Reported(stream.tail)) && at == old(at) && pos == old(pos) && ended
    {
      if at + 1 == |stream.members| { return Some(Reported(stream.tail)); }
      at, pos, ended, multistream := at + 1, 0, false, true;
      verdict := None;
    }
  }

  // -------------------------------------------------------- the member walk

  class Reader {
    const z: Decompressor
    var err: Option<Verdict>
    var n: nat

    // Everything handed out so far, from the decompressor's position.
    ghost function Delivered(): Bytes
      reads this, z
      requires z.Valid()
    {
      Joined(z.stream.members[..z.at]) + z.stream.members[z.at].data[..z.pos]
    }

    ghost predicate Valid()
      reads this, z
    {
      && z.Valid() && n == z.pos && Passed(z.stream.members, z.at)
      && (err.None? ==> !z.ended && !z.multistream)
      && (err.Some? ==> Delivered() == Data(z.stream.members) && err.value == End(z.stream.members, z.stream.tail))
    }

    // NewReader
    constructor (z: Decompressor)
      requires z.Valid() && z.at == 0 && z.pos == 0 && !z.ended
      modifies z
      ensures Valid() && this.z == z && err == None && Delivered() == []
    {
      this.z := z;
      err := None;
      n := 0;
      new;
      z.Multistream(false);
      assert z.stream.members[..0] == [];
    }

    // One decompressor call at a time until there is something to say; `chunks`
    // is what those calls do.
    method Read(want: nat, chunks: nat -> Chunk) returns (out: Bytes, verdict: Option<Verdict>)
      requires Valid()
      modifies this, z
      ensures Valid() && |out| <= want && Delivered() == old(Delivered()) + out
      ensures verdict == err && (verdict.Some? ==> out == [])
      ensures old(err).Some? ==> verdict == old(err) && out == []
      ensures want > 0 && AllBusy(chunks) ==> out != [] || verdict.Some?
    {
      if err.Some? { return [], err; }
      var calls := 0;
      ghost var before := Delivered();
      while true
        invariant Valid() && err.None? && Delivered() == before
        decreases |z.stream.members| - z.at
      {
        var answer;
        ghost var pos := z.pos;
        out, answer := z.Read(want, chunks(calls));
        calls := calls + 1;
        n := n + |out|;
        assert AllBusy(chunks) ==> Busy(chunks(calls - 1));
        ReadOn(z.stream.members, z.at, pos, z.pos);
        if |out| > 0 || answer.None? { return out, None; }
        MemberEnded(answer.value);
        if err.Some? { return [], err; }
      }
    }

    /** Reading on, with any sizes but zero and any chunks, comes to the stream's end:
        all of its data was handed out, and the verdict is its own. */
    method ReadToEnd(wants: nat -> nat, chunks: nat -> nat -> Chunk) returns (all: Bytes, verdict: Verdict)
      requires Valid() && err.None?
      requires forall k: nat :: wants(k) > 0
      requires forall k: nat :: AllBusy(chunks(k))
      modifies this, z
      ensures Valid() && old(Delivered()) + all == Delivered() == Data(z.stream.members)
      ensures verdict == End(z.stream.members, z.stream.tail) && err == Some(verdict)
    {
      var k: nat := 0;
      all := [];
      ghost var before, data := Delivered(), Data(z.stream.members);
      Within();
      while true
        invariant Valid() && err.None? && Delivered() == before + all <= data
        decreases |data| - |all|
      {
        assert AllBusy(chunks(k));
        var out, answer := Read(wants(k), chunks(k));
        Within();
        AppendOn(before, all, out);
        all := all + out;
        k := k + 1;
        if answer.Some? { return all, answer.value; }
      }
    }

    lemma Within()
      requires Valid()
      ensures Delivered() <= Data(z.stream.members)
    {
      DeliveredIsPrefix(z.stream.members, z.at, z.pos);
    }

    // A member is over: a verdict, or on to the next one.
    method MemberEnded(why: Verdict)
      requires z.Valid() && z.ended && n == z.pos && Passed(z.stream.members, z.at) && err.None?
      requires why == Reported(z.stream.members[z.at].fault)
      modifies this, z
      ensures Valid() && Delivered() == old(Delivered())
      ensures err.None? ==> z.at == old(z.at) + 1
    {
      EndReached(z.stream, z.at);
      if why != EndOfFile {
        err := Some(why);
        return;
      }
      if n == 0 {
        err := Some(EmptyMember);
        return;
      }
      var next := z.Reset();
      if next.Some? {
        err := next;
        return;
      }
      z.Multistream(false);
      n := 0;
    }
  }

  lemma AppendOn(a: Bytes, b: Bytes, c: Bytes)
    ensures a + b + c == a + (b + c)
  {}

  lemma ReadOn(members: seq<Member>, at: nat, pos: nat, next: nat)
    requires at < |members| && pos <= next <= |members[at].data|
    ensures Joined(members[..at]) + members[at].data[..next] ==
            Joined(members[..at]) + members[at].data[..pos] + members[at].data[pos..next]
  {}

  // Where the end of a member leaves the walk.
  lemma EndReached(stream: Stream, at: nat)
    requires at < |stream.members| && Passed(stream.members, at)
    ensures var m := stream.members[at];
            var here := Joined(stream.members[..at]) + m.data[..|m.data|];
            && (Stops(m) ==> here == Data(stream.members))
            && (Stops(m) ==>
                  End(stream.members, stream.tail) == if m.fault.Some? then Reported(m.fault) else EmptyMember)
            && (!Stops(m) && at + 1 == |stream.members| ==> here == Data(stream.members))
            && (!Stops(m) && at + 1 == |stream.members| ==> End(stream.members, stream.tail) == Reported(stream.tail))
            && (!Stops(m) ==> Passed(stream.members, at + 1) && here == Joined(stream.members[..at + 1]))
  {
    var members := stream.members;
    var m := members[at];
    DataSplits(members, at);
    EndSplits(members, stream.tail, at);
    assert m.data[..|m.data|] == m.data;
    assert members[at..][0] == m && members[at..][1..] == members[at + 1..];
    assert members[..at + 1][..at] == members[..at];
    if !Stops(m) && at + 1 == |members| { assert members[at + 1..] == []; }
  }

  lemma DeliveredIsPrefix(members: seq<Member>, at: nat, pos: nat)
    requires at < |members| && pos <= |members[at].data| && Passed(members, at)
    ensures Joined(members[..at]) + members[at].data[..pos] <= Data(members)
  {
    DataSplits(members, at);
    assert members[at..][0] == members[at];
    assert members[at].data[..pos] <= members[at].data;
  }

  // ------------------------------------------------------------ the limit

  // decompressedLimitReader
  class LimitReader {
    const under: Reader
    const max: int
    var err: Option<Verdict>
    var n: nat
    ghost var delivered: Bytes

    ghost function Held(): Bytes
      reads this, under, under.z
    {
      Data(under.z.stream.members)
    }

    function Cap(): nat { if max > 0 then max else 0 }

    // What was let through so far, of what the walk yields in all.
    ghost predicate Valid()
      reads this, under, under.z
    {
      && under.Valid() && n == |under.Delivered()| <= Cap() + 1
      && delivered <= Held() && |delivered| <= Cap()
      && (err == None || err == Some(OverLimit))
      && (err.None? ==> delivered == under.Delivered())
      && (err.Some? ==> |Held()| > max)
    }

    constructor (under: Reader, max: int)
      requires under.Valid() && under.Delivered() == []
      ensures Valid() && this.under == under && this.max == max && delivered == [] && err == None
    {
      this.under := under;
      this.max := max;
      err := None;
      n := 0;
      delivered := [];
    }

    method Read(want: nat, chunks: nat -> Chunk) returns (out: Bytes, verdict: Option<Verdict>)
      requires Valid()
      modifies this, under, under.z
      ensures Valid() && |out| <= want && delivered == old(delivered) + out
      ensures Held() == old(Held())
      ensures verdict.Some? ==> out == []
      ensures verdict.Some? ==> (verdict.value == OverLimit <==> |Held()| > max)
      ensures verdict.Some? && verdict.value != OverLimit ==>
                delivered == Held() && verdict.value == End(under.z.stream.members, under.z.stream.tail)
      ensures old(err).Some? ==> verdict == old(err)
      ensures verdict.None? ==> err.None?
      ensures want > 0 && AllBusy(chunks) ==> out != [] || verdict.Some?
    {
      if err.Some? { return [], err; }
      var remaining := if max - n > 0 then max - n else 0;
      var ask := if remaining < want then remaining + 1 else want;
      out, verdict := under.Read(ask, chunks);
      DeliveredIsPrefix(under.z.stream.members, under.z.at, under.z.pos);
      n := n + |out|;
      if n > max {
        err := Some(OverLimit);
        return [], err;
      }
      delivered := delivered + out;
      NeverOver(under.z.stream.members, under.z.stream.tail);
    }

    /** Reading on to a verdict always gets one: the limit's exactly when the stream
        holds more than the limit; else the stream's own, after all of its data. */
    method ReadToEnd(wants: nat -> nat, chunks: nat -> nat -> Chunk) returns (all: Bytes, verdict: Verdict)
      requires Valid() && err.None?
      requires forall k: nat :: wants(k) > 0
      requires forall k: nat :: AllBusy(chunks(k))
      modifies this, under, under.z
      ensures Valid() && delivered == old(delivered) + all && delivered <= Held()
      ensures verdict == if |Held()| > max then OverLimit else End(under.z.stream.members, under.z.stream.tail)
      ensures |Held()| <= max ==> delivered == Held()
    {
      var k: nat := 0;
      all := [];
      while true
        invariant Valid() && err.None? && delivered == old(delivered) + all
        decreases |Held()| - |delivered|
      {
        assert AllBusy(chunks(k));
        var out, answer := Read(wants(k), chunks(k));
        all := all + out;
        k := k + 1;
        if answer.Some? { return all, answer.value; }
      }
    }
  }

  lemma {:induction false} NeverOver(members: seq<Member>, tail: Option<string>)
    ensures End(members, tail) != OverLimit
  {
    if members != [] { NeverOver(members[1..], tail); }
  }
}
