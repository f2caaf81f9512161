/** How many blocks the free map (fs.c) has left. */
module FsCount {
  import opened Disk
  import opened FsBlocks

  /** Blocks from `from` on that are not marked in use. */
  function FreeBlocks(fs: Fs, from: nat := 0): (n: nat)
    requires Shape(fs) && from <= fs.sb.size
    decreases fs.sb.size - from
  {
    if from == fs.sb.size then 0 else (if IsSet(fs, from) then 0 else 1) + FreeBlocks(fs, from + 1)
  }

  lemma {:induction false} SameCount(s: Fs, t: Fs, from: nat)
    requires Shape(s) && Shape(t) && t.sb == s.sb && from <= s.sb.size
    requires forall c | from <= c < s.sb.size :: IsSet(t, c) == IsSet(s, c)
    ensures FreeBlocks(t, from) == FreeBlocks(s, from)
    decreases s.sb.size - from
  {
    hide IsSet;
    if from < s.sb.size {
      SameCount(s, t, from + 1);
    }
  }

  /** Marking a free block leaves one fewer. */
  lemma {:induction false} MarkCount(s: Fs, t: Fs, b: nat, from: nat)
    requires Shape(s) && Shape(t) && t.sb == s.sb && from <= b < s.sb.size && !IsSet(s, b)
    requires forall c | 0 <= c < s.sb.size :: IsSet(t, c) == (c == b || IsSet(s, c))
    ensures FreeBlocks(t, from) == FreeBlocks(s, from) - 1
    decreases s.sb.size - from
  {
    hide IsSet;
    if from == b {
      SameCount(s, t, b + 1);
    } else {
      MarkCount(s, t, b, from + 1);
    }
  }

  lemma {:induction false} SomeFree(fs: Fs, b: nat, from: nat)
    requires Shape(fs) && from <= b <= fs.sb.size && forall c | from <= c < b :: IsSet(fs, c)
    requires b < fs.sb.size ==> !IsSet(fs, b)
    ensures FreeBlocks(fs, from) == 0 <==> b == fs.sb.size
    decreases b - from
  {
    hide IsSet;
    if from < b {
      SomeFree(fs, b, from + 1);
    }
  }
}
