/** Any sequence of file operations: the block layer behaves as a table of typed byte sequences. */
module FsRuns {
  import opened Disk
  import opened Options
  import opened FsBlocks
  import opened FsCount
  import opened FsAlloc
  import opened FsBytes
  import opened FsTrunc

  datatype Op = Write(n: nat, off: nat, src: seq<byte>) | FileWrite(n: nat, off: nat, src: seq<byte>) | Truncate(n: nat)

  ghost predicate OpOk(fs: Fs, op: Op) {
    && op.n < |fs.inodes|
    && (!op.Truncate? ==> |op.src| < LIMIT && op.off < LIMIT)
    && (op.FileWrite? ==> op.off <= fs.inodes[op.n].size)  // the file offset never passes the end
  }

  /** The operation ran to its end, without a panic. */
  ghost predicate Step(s: Fs, op: Op, t: Fs)
    requires Shape(s)
  {
    OpOk(s, op) &&
    match op
    case Write(n, off, src) =>
      var r := Writei(s, n, off, src);
      (r.Rejected? && t == s) || (r.Done? && t == r.fs)
    case FileWrite(n, off, src) =>
      var r := FsBytes.FileWrite(s, n, off, src);
      !r.Crashed? && t == r.fs
    case Truncate(n) =>
      (forall i | 0 <= i < |BlocksOf(s, n)| :: BlocksOf(s, n)[i] < s.sb.size) && t == Itrunc(s, n)
  }

  datatype File = File(typ: int, bytes: seq<byte>)

  ghost function Files(fs: Fs, owner: map<nat, Ref>): (f: seq<File>)
    requires FsInv(fs, owner)
    ensures |f| == |fs.inodes|
  {
    seq(|fs.inodes|, n requires 0 <= n < |fs.inodes| => assert FileOk(fs, n); File(fs.inodes[n].typ, Bytes(fs, n)))
  }

  /** What the operation does to the files. */
  ghost predicate Does(f: seq<File>, op: Op, g: seq<File>) {
    && |g| == |f| && op.n < |f|
    && (forall x | 0 <= x < |f| && x != op.n :: g[x] == f[x])
    && g[op.n].typ == f[op.n].typ
    && var was, now := f[op.n].bytes, g[op.n].bytes;
       match op
       case Truncate(_) => now == []
       case Write(_, off, src) =>
         now == if off > |was| || off + |src| > MAXBYTES then was else Splice(was, off, src)
       case FileWrite(_, off, src) =>
         off <= |was| && exists k | 0 <= k <= |src|  ::
           now == Splice(was, off, src[..k]) && (k < |src| <==> off + |src| > MAXBYTES)
  }

  lemma {:induction false} WriteStep(s: Fs, owner: map<nat, Ref>, op: Op, t: Fs) returns (owner': map<nat, Ref>)
    requires FsInv(s, owner) && op.Write? && Step(s, op, t)
    ensures FsInv(t, owner') && Does(Files(s, owner), op, Files(t, owner'))
  {
    hide Owned, Writei, FileOk, Bytes, Splice;
    owner' := WriteiSplices(s, owner, op.n, op.off, op.src);
    if t == s {
      owner' := owner;
    }
    assert FileOk(s, op.n);
  }

  lemma {:induction false} FileWriteStep(s: Fs, owner: map<nat, Ref>, op: Op, t: Fs) returns (owner': map<nat, Ref>)
    requires FsInv(s, owner) && op.FileWrite? && Step(s, op, t)
    ensures FsInv(t, owner') && Does(Files(s, owner), op, Files(t, owner'))
  {
    hide Owned, FsBytes.FileWrite, FileOk, Bytes, Splice, FreeBlocks, WriteNeed;
    owner' := FileWriteSplices(s, owner, op.n, op.off, op.src);
    var k := Fit(op.off, |op.src|);
    assert op.src[..|op.src|] == op.src;
    assert Spliced(s, owner, t, owner', op.n, op.off, op.src[..k]);
  }

  lemma {:induction false} TruncateStep(s: Fs, owner: map<nat, Ref>, op: Op, t: Fs) returns (owner': map<nat, Ref>)
    requires FsInv(s, owner) && op.Truncate? && Step(s, op, t)
    ensures FsInv(t, owner') && Does(Files(s, owner), op, Files(t, owner'))
  {
    hide Owned, Itrunc, FileOk, Bytes, BlocksOf, IsSet;
    owner' := ItruncReturnsBlocks(s, owner, op.n);
  }

  lemma {:induction false} StepRefines(s: Fs, owner: map<nat, Ref>, op: Op, t: Fs) returns (owner': map<nat, Ref>)
    requires FsInv(s, owner) && Step(s, op, t)
    ensures FsInv(t, owner') && Does(Files(s, owner), op, Files(t, owner'))
  {
    hide FsInv, Step, Does;
    match op
    case Write(_, _, _) => owner' := WriteStep(s, owner, op, t);
    case FileWrite(_, _, _) => owner' := FileWriteStep(s, owner, op, t);
    case Truncate(_) => owner' := TruncateStep(s, owner, op, t);
  }

  /** A run of operations. */
  ghost predicate Run(states: seq<Fs>, ops: seq<Op>) {
    && |states| == |ops| + 1
    && forall i | 0 <= i < |ops| :: Shape(states[i]) && Step(states[i], ops[i], states[i + 1])
  }

  ghost predicate Inv(fs: Fs, f: seq<File>) {
    exists owner :: FsInv(fs, owner) && Files(fs, owner) == f
  }

  /** Over every run from a sound disk, each state is sound, and its files are what the
      operations say of byte sequences; no operation changes a type. */
  lemma {:induction false} RunRefines(states: seq<Fs>, ops: seq<Op>, f: seq<File>) returns (files: seq<seq<File>>)
    requires Run(states, ops) && Inv(states[0], f)
    ensures |files| == |states| && files[0] == f
    ensures forall i | 0 <= i < |states| :: Inv(states[i], files[i])
    ensures forall i | 0 <= i < |ops| :: Does(files[i], ops[i], files[i + 1])
  {
    hide Does, FsInv, Files, Step;
    files := [f];
    var i := 0;
    while i < |ops|
      invariant 0 <= i <= |ops| && |files| == i + 1 && files[0] == f
      invariant forall k | 0 <= k <= i :: Inv(states[k], files[k])
      invariant forall k | 0 <= k < i :: Does(files[k], ops[k], files[k + 1])
    {
      var owner :| FsInv(states[i], owner) && Files(states[i], owner) == files[i];
      var owner' := StepRefines(states[i], owner, ops[i], states[i + 1]);
      var g := Files(states[i + 1], owner');
      assert Inv(states[i + 1], g);
      files := files + [g];
      i := i + 1;
    }
  }
}
