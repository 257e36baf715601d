/**
 The page-file layer (`parent_vfs.rs`, `parent_sqlite.rs`): a read loop over an operating
 system that may answer short or be interrupted, a checked range, a size cap, and a poison
 flag that any failed mutation sets for good.
 */
module PageFile {
  import opened Results
  import opened Native
  import opened FileAnswers

  const MAX_FILE: nat := 16 * 1024 * 1024
  type U64 = n: nat | n < 0x1_0000_0000_0000_0000

  /** `range`: the end must not overflow 64 bits nor pass the cap. */
  predicate InRange(offset: U64, len: nat) {
    offset + len < 0x1_0000_0000_0000_0000 && offset + len <= MAX_FILE
  }

  /** The cap is 16 MiB, and an end beyond 64 bits is beyond it. */
  lemma RangeIsExact(offset: U64, len: nat)
    ensures InRange(offset, len) <==> offset + len <= 16_777_216
  {
  }

  function Zeros(n: nat): Bytes {
    seq(n, _ => 0)
  }

  function Min(a: int, b: int): int {
    if a <= b then a else b
  }

  // ---------------------------------------------------------------- ideal operations

  /** Bytes a read of `len` at `offset` can return. */
  function Available(content: Bytes, offset: nat, len: nat): nat {
    if |content| <= offset then 0 else Min(len, |content| - offset)
  }

  /** One ideal read: file content, then zeros. */
  function IdealRead(content: Bytes, offset: nat, len: nat): Bytes {
    var n := Available(content, offset, len);
    (if n == 0 then [] else content[offset..offset + n]) + Zeros(len - n)
  }

  function Extended(content: Bytes, len: nat): Bytes {
    if |content| < len then content + Zeros(len - |content|) else content
  }

  /** Writing all of `bytes` at `offset`; a gap is filled with zeros. */
  function Overwritten(content: Bytes, offset: nat, bytes: Bytes): Bytes {
    if bytes == [] then content
    else
      var c := Extended(content, offset + |bytes|);
      c[..offset] + bytes + c[offset + |bytes|..]
  }

  function Resized(content: Bytes, len: nat): Bytes {
    Extended(content, len)[..len]
  }

  /** What was written is what is read back, and nothing else changed. */
  lemma ReadsBack(content: Bytes, offset: nat, bytes: Bytes, i: nat)
    ensures IdealRead(Overwritten(content, offset, bytes), offset, |bytes|) == bytes
    ensures |Overwritten(content, offset, bytes)| == if bytes == [] || offset + |bytes| <= |content| then |content| else offset + |bytes|
    ensures i < |content| && !(offset <= i < offset + |bytes|) ==> Overwritten(content, offset, bytes)[i] == content[i]
    ensures |content| <= i < offset && bytes != [] ==> Overwritten(content, offset, bytes)[i] == 0
  {
  }

  /** A truncated file keeps its beginning; a lengthened one gets zeros. */
  lemma ResizedIs(content: Bytes, len: nat, i: nat)
    ensures |Resized(content, len)| == len
    ensures i < len ==> Resized(content, len)[i] == if i < |content| then content[i] else 0
  {
  }

  // ---------------------------------------------------------------- the read loop

  /** What the system answers to one read call. */
  datatype Reply = Short(n: nat) | Interrupted | Broken

  /** Bytes one unbroken call returns: at least one unless at the end of the file. */
  function Served(content: Bytes, offset: nat, want: nat, n: nat): (k: nat)
    ensures k <= want
    ensures k == 0 <==> Available(content, offset, want) == 0
  {
    Min(if n == 0 then 1 else n, Available(content, offset, want))
  }

  /** The loop of `read_at` on a buffer already filled with zeros.  The replies may be any
      finite pattern; after them the system answers in full. */
  method Assemble(content: Bytes, offset: nat, buffer: array<Byte>, replies: seq<Reply>) returns (out: Answer<nat>)
    requires forall i :: 0 <= i < buffer.Length ==> buffer[i] == 0
    modifies buffer
    ensures out.Fine? ==> out.value == Available(content, offset, buffer.Length)
    ensures out.Fine? ==> buffer[..] == IdealRead(content, offset, buffer.Length)
    ensures out.Failed? ==> out.why == Io && Broken in replies
  {
    var count: nat := 0;
    var rest := replies;
    while count < buffer.Length
      invariant count <= Available(content, offset, buffer.Length) <= buffer.Length
      invariant forall i :: 0 <= i < count ==> buffer[i] == content[offset + i]
      invariant forall i :: count <= i < buffer.Length ==> buffer[i] == 0
      invariant forall r :: r in rest ==> r in replies
      decreases |rest|, buffer.Length - count
    {
      var reply := if rest == [] then Short(buffer.Length) else rest[0];
      rest := if rest == [] then [] else rest[1..];
      if reply.Broken? {
        return Failed(Io);
      }
      if reply.Short? {
        var n := Served(content, offset + count, buffer.Length - count, reply.n);
        if n == 0 {
          break;
        }
        forall i | 0 <= i < n {
          buffer[count + i] := content[offset + count + i];
        }
        count := count + n;
      }
    }
    assert buffer[..] == IdealRead(content, offset, buffer.Length);
    return Fine(count);
  }

  // ---------------------------------------------------------------- the directory of page files

  /** What a session does.  A write may break after some bytes; a truncation or a creation may
      fail having happened or not; a sync may fail. */
  datatype Op =
    | Read(name: string, offset: U64, len: nat, replies: seq<Reply>)
    | Write(name: string, writable: bool, offset: U64, bytes: Bytes, broken: Option<nat>)
    | Truncate(name: string, size: U64, halted: Option<bool>)
    | Create(name: string, halted: Option<bool>)
    | Sync(failed: bool)

  ghost predicate Capped(files: map<string, Bytes>) {
    forall name :: name in files ==> |files[name]| <= 16_777_216
  }

  /** A mutation that began failed: its effect is in doubt. */
  predicate Broke(op: Op, before: map<string, Bytes>, a: Answer<Bytes>) {
    !op.Read? && a == Failed(Io) && (op.Write? || op.Truncate? ==> op.name in before)
  }

  /** Operation `j` was refused, and the files are still as operation `i` left them. */
  ghost predicate Refused(answers: seq<Answer<Bytes>>, states: seq<map<string, Bytes>>, i: nat, j: nat)
    requires i <= j < |answers| && |states| == |answers| + 1
  {
    answers[j] == Failed(Fault.Pending) && states[j + 1] == states[i + 1]
  }

  /** A failed write leaves some prefix of its bytes. */
  ghost predicate PartlyWritten(content: Bytes, offset: nat, bytes: Bytes, after: Bytes) {
    exists n: nat :: n <= |bytes| && after == Overwritten(content, offset, bytes[..n])
  }

  class Root {
    var files: map<string, Bytes>
    var poisoned: bool

    constructor (files: map<string, Bytes>)
      ensures this.files == files && !poisoned
    {
      this.files := files;
      poisoned := false;
    }

    /** `read_at`, into a fresh buffer. */
    method ReadAt(name: string, offset: U64, len: nat, replies: seq<Reply>) returns (out: Answer<Bytes>, count: nat)
      ensures out.Fine? ==>
                && !poisoned && name in files && InRange(offset, len)
                && out.value == IdealRead(files[name], offset, len) && count == Available(files[name], offset, len)
                && |out.value| == len
                && (forall i :: 0 <= i < len ==> out.value[i] == if offset + i < |files[name]| then files[name][offset + i] else 0)
                && (if |files[name]| <= offset then count == 0
                    else if offset + len <= |files[name]| then count == len
                    else count == |files[name]| - offset)
      ensures poisoned ==> out == Failed(Fault.Pending)
      ensures !poisoned && name in files && |files[name]| <= MAX_FILE && InRange(offset, len) && Broken !in replies ==> out.Fine?
      ensures !poisoned && name in files && !InRange(offset, len) ==> out == Failed(Capacity)
    {
      count := 0;
      if poisoned {
        return Failed(Fault.Pending), count;
      }
      if name !in files {
        return Failed(Io), count;
      }
      if |files[name]| > MAX_FILE || !InRange(offset, len) {
        return Failed(Capacity), count;
      }
      var buffer := new Byte[len](_ => 0);
      var done := Assemble(files[name], offset, buffer, replies);
      if done.Failed? {
        return Failed(done.why), count;
      }
      return Fine(buffer[..]), done.value;
    }

    /** `write_at`. */
    method WriteAt(name: string, writable: bool, offset: U64, bytes: Bytes, broken: Option<nat>) returns (out: Answer<Bytes>)
      modifies this
      ensures old(poisoned) ==> out == Failed(Fault.Pending) && files == old(files) && poisoned
      ensures out.Fine? ==>
                && !poisoned && writable && InRange(offset, |bytes|) && name in old(files)
                && files == old(files)[name := Overwritten(old(files)[name], offset, bytes)]
      ensures out == Failed(Io) ==> poisoned || name !in files
      ensures out.Failed? && !poisoned ==> files == old(files)
      ensures out.Failed? && poisoned && !old(poisoned) ==>
                && out.why == Io && name in old(files) && name in files
                && PartlyWritten(old(files)[name], offset, bytes, files[name]) && files == old(files)[name := files[name]]
      ensures Capped(old(files)) ==> Capped(files)
      ensures !poisoned && writable && name in old(files) && |old(files)[name]| <= MAX_FILE ==>
                (out.Fine? <==> InRange(offset, |bytes|))
      ensures broken.None? ==> poisoned == old(poisoned)
    {
      if poisoned {
        return Failed(Fault.Pending);
      }
      if name !in files {
        return Failed(Io);
      }
      if !writable {
        return Failed(UnsafeEntry);
      }
      if |files[name]| > MAX_FILE || !InRange(offset, |bytes|) {
        return Failed(Capacity);
      }
      if broken.Some? {
        var written: nat := if broken.value <= |bytes| then broken.value else |bytes|;
        files := files[name := Overwritten(files[name], offset, bytes[..written])];
        poisoned := true;
        return Failed(Io);
      }
      files := files[name := Overwritten(files[name], offset, bytes)];
      return Fine([]);
    }
  
    /** `truncate`. */
    method TruncateTo(name: string, size: U64, halted: Option<bool>) returns (out: Answer<Bytes>)
      modifies this
      ensures old(poisoned) ==> out == Failed(Fault.Pending) && files == old(files) && poisoned
      ensures out.Fine? ==>
                && !poisoned && size <= MAX_FILE && name in old(files)
                && files == old(files)[name := Resized(old(files)[name], size)]
      ensures out == Failed(Io) ==> poisoned || name !in files
      ensures out.Failed? && !poisoned ==> files == old(files)
      ensures out.Failed? && poisoned && !old(poisoned) ==>
                && out.why == Io && name in old(files)
                && (files == old(files) || files == old(files)[name := Resized(old(files)[name], size)])
      ensures !poisoned && name in old(files) && |old(files)[name]| <= MAX_FILE ==> (out.Fine? <==> size <= MAX_FILE)
      ensures Capped(old(files)) ==> Capped(files)
      ensures halted.None? ==> poisoned == old(poisoned)
    {
      if poisoned {
        return Failed(Fault.Pending);
      }
      if name !in files {
        return Failed(Io);
      }
      if |files[name]| > MAX_FILE || !InRange(size, 0) {
        return Failed(Capacity);
      }
      if halted.None? || halted.value {
        files := files[name := Resized(files[name], size)];
      }
      poisoned := halted.Some?;
      return if halted.Some? then Failed(Io) else Fine([]);
    }

    /** `create_new`: any failure, an existing name included, is uncertain. */
    method CreateNew(name: string, halted: Option<bool>) returns (out: Answer<Bytes>)
      modifies this
      ensures old(poisoned) ==> out == Failed(Fault.Pending) && files == old(files) && poisoned
      ensures out.Fine? ==> !poisoned && name !in old(files) && files == old(files)[name := []]
      ensures out.Failed? && !old(poisoned) ==> out.why == Io
      ensures out.Failed? ==> poisoned && (files == old(files) || (name !in old(files) && files == old(files)[name := []]))
      ensures name in old(files) ==> out.Failed? && files == old(files)
      ensures Capped(old(files)) ==> Capped(files)
      ensures halted.None? && !old(poisoned) && name !in old(files) ==> out.Fine?
    {
      if poisoned {
        return Failed(Fault.Pending);
      }
      if name in files {
        poisoned := true;
        return Failed(Io);
      }
      if halted.None? || halted.value {
        files := files[name := []];
      }
      poisoned := halted.Some?;
      return if halted.Some? then Failed(Io) else Fine([]);
    }

    /** `sync` and `sync_directory`. */
    method SyncAll(failed: bool) returns (out: Answer<Bytes>)
      modifies this`poisoned
      ensures old(poisoned) ==> out == Failed(Fault.Pending) && poisoned
      ensures out.Fine? <==> !poisoned
      ensures !old(poisoned) && out.Failed? ==> out.why == Io
      ensures !failed ==> poisoned == old(poisoned)
    {
      if poisoned {
        return Failed(Fault.Pending);
      }
      poisoned := failed;
      return if poisoned then Failed(Io) else Fine([]);
    }

    method Perform(op: Op) returns (out: Answer<Bytes>)
      modifies this
      ensures old(poisoned) ==> out == Failed(Fault.Pending) && files == old(files) && poisoned
      ensures poisoned <==> old(poisoned) || Broke(op, old(files), out)
      ensures op.Read? ==> files == old(files)
      ensures Capped(old(files)) ==> Capped(files)
    {
      match op
      case Read(name, offset, len, replies) =>
        var count;
        out, count := ReadAt(name, offset, len, replies);
      case Write(name, writable, offset, bytes, broken) => out := WriteAt(name, writable, offset, bytes, broken);
      case Truncate(name, size, halted) => out := TruncateTo(name, size, halted);
      case Create(name, halted) => out := CreateNew(name, halted);
      case Sync(failed) => out := SyncAll(failed);
    }

    /** `with_exclusive` around any action: `ops` are what it did and `verdict` what it made of
        the answers.  After a mutation broke, every later operation is refused and changes
        nothing, and the session cannot succeed even if the action swallowed the error. */
    method WithExclusive(ops: seq<Op>, verdict: seq<Answer<Bytes>> -> Answer<()>)
      returns (out: Answer<()>, answers: seq<Answer<Bytes>>, ghost states: seq<map<string, Bytes>>)
      modifies this
      ensures old(poisoned) ==> out == Failed(Fault.Pending) && files == old(files) && poisoned && answers == []
      ensures !old(poisoned) ==> |answers| == |ops| && |states| == |ops| + 1 && states[0] == old(files) && states[|ops|] == files
      ensures !old(poisoned) ==> out == if verdict(answers).Fine? && poisoned then Failed(Fault.Pending) else verdict(answers)
      ensures !old(poisoned) ==> (poisoned <==> exists i :: 0 <= i < |ops| && Broke(ops[i], states[i], answers[i]))
      ensures !old(poisoned) ==> forall i, j :: 0 <= i < j < |ops| && Broke(ops[i], states[i], answers[i]) ==>
                Refused(answers, states, i, j)
      ensures Capped(old(files)) ==> Capped(files)
    {
      answers, states := [], [files];
      if poisoned {
        return Failed(Fault.Pending), answers, states;
      }
      for i := 0 to |ops|
        invariant |answers| == i && |states| == i + 1 && states[0] == old(files) && states[i] == files
        invariant Capped(old(files)) ==> Capped(files)
        invariant poisoned <==> exists k :: 0 <= k < i && Broke(ops[k], states[k], answers[k])
        invariant forall k :: 0 <= k < i && Broke(ops[k], states[k], answers[k]) ==> states[i] == states[k + 1]
        invariant forall k, j :: 0 <= k < j < i && Broke(ops[k], states[k], answers[k]) ==> Refused(answers, states, k, j)
      {
        var a := Perform(ops[i]);
        ghost var before, seen := states, answers;
        answers := answers + [a];
        states := states + [files];
        forall k, j | 0 <= k < j < i + 1 && Broke(ops[k], states[k], answers[k]) ensures Refused(answers, states, k, j) {
          assert Broke(ops[k], before[k], seen[k]);
          if j < i {
            assert Refused(seen, before, k, j);
          }
        }
      }
      out := verdict(answers);
      if out.Fine? && poisoned {
        out := Failed(Fault.Pending);
      }
    }
  }
}
