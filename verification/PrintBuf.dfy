// struct printbuf: a growing character buffer.

module PrintBuf {
  import opened Arith
  import opened Chars

  // printbuf_extend: the size that makes room for min characters
  function Extended(size: nat, min: nat): nat {
    if size >= min then size else Max(size * 2, min + 8)
  }

  // How large a buffer may be that has held `peak` characters at most
  function Bound(peak: nat): nat {
    Max(32, 2 * peak)
  }

  function Repeated(c: char, n: nat): Text {
    seq(n, i => c)
  }

  class Printbuf {
    var buf: array<char>           // p->size is buf.Length
    var bpos: nat
    ghost var peak: nat            // the largest bpos so far

    ghost predicate Valid()
      reads this, buf
    {
      32 <= buf.Length <= Bound(peak) && bpos <= buf.Length && bpos <= peak
    }

    ghost function Contents(): Text
      requires Valid()
      reads this, buf
    {
      buf[..bpos]
    }

    ghost predicate Terminated()
      reads this, buf
    {
      bpos < buf.Length && buf[bpos] == '\0'
    }

    constructor ()
      ensures Valid() && fresh(buf) && Contents() == "" && buf.Length == 32 && peak == 0
    {
      buf := new char[32];
      bpos := 0;
      peak := 0;
    }

    // realloc keeps what was there.
    method Extend(minSize: nat)
      requires Valid()
      modifies `buf
      ensures buf.Length == Extended(old(buf.Length), minSize)
      ensures buf == old(buf) || fresh(buf)
      ensures forall i | 0 <= i < bpos :: buf[i] == old(buf[i])
    {
      if buf.Length >= minSize {
        return;
      }
      var t := new char[Max(buf.Length * 2, minSize + 8)];
      forall i | 0 <= i < buf.Length {
        t[i] := buf[i];
      }
      buf := t;
    }

    // memcpy behind the contents, and the terminator
    method Store(s: Text)
      requires Valid() && bpos + |s| < buf.Length
      modifies `bpos, `peak, buf
      ensures Valid() && buf.Length == old(buf.Length)
      ensures Contents() == old(Contents()) + s && Terminated() && peak == Max(old(peak), bpos)
    {
      forall i | 0 <= i < |s| {
        buf[bpos + i] := s[i];
      }
      bpos := bpos + |s|;
      buf[bpos] := '\0';
      peak := Max(peak, bpos);
    }

    method MemAppend(s: Text)
      requires Valid()
      modifies this, buf
      ensures Valid() && (buf == old(buf) || fresh(buf))
      ensures Contents() == old(Contents()) + s && Terminated()
      ensures buf.Length == Extended(old(buf.Length), old(bpos) + |s| + 1) && peak == Max(old(peak), bpos)
    {
      if buf.Length <= bpos + |s| + 1 {
        Grow(bpos + |s| + 1, bpos + |s|);
      }
      Store(s);
    }

    // Room for what is about to be written
    method Grow(minSize: nat, ghost next: nat)
      requires Valid() && next <= minSize <= next + 1
      modifies `buf, `peak
      ensures Valid() && peak == Max(old(peak), next)
      ensures buf.Length == Extended(old(buf.Length), minSize)
      ensures buf == old(buf) || fresh(buf)
      ensures Contents() == old(Contents())
    {
      Extend(minSize);
      peak := Max(peak, next);
    }

    // printbuf_memappend_fast
    method MemAppendFast(s: Text)
      requires Valid()
      modifies this, buf
      ensures Valid() && (buf == old(buf) || fresh(buf))
      ensures Contents() == old(Contents()) + s && Terminated()
      ensures buf.Length == Extended(old(buf.Length), old(bpos) + |s| + 1) && peak == Max(old(peak), bpos)
    {
      if buf.Length - bpos > |s| {
        Store(s);
      } else {
        MemAppend(s);
      }
    }

    // An offset of -1 is the end of the contents.  No terminator is written.
    method MemSet(offset: int, c: char, len: nat)
      requires Valid() && offset >= -1
      modifies this, buf
      ensures Valid() && (buf == old(buf) || fresh(buf))
      ensures var at := if offset == -1 then old(bpos) else offset;
              && bpos == Max(old(bpos), at + len) && peak == Max(old(peak), bpos)
              && buf.Length == Extended(old(buf.Length), at + len)
              && (forall i | at <= i < at + len :: buf[i] == c)
              && (forall i | 0 <= i < old(bpos) && !(at <= i < at + len) :: buf[i] == old(buf[i]))
      ensures offset == -1 ==> Contents() == old(Contents()) + Repeated(c, len)
    {
      var at: nat := if offset == -1 then bpos else offset;
      var needed := at + len;
      if buf.Length < needed {
        Grow(needed, needed);
      }
      forall i | at <= i < at + len {
        buf[i] := c;
      }
      if bpos < needed {
        bpos := needed;
      }
      peak := Max(peak, bpos);
    }

    method Reset()
      requires Valid()
      modifies `bpos, buf
      ensures Valid() && Contents() == "" && Terminated()
    {
      buf[0] := '\0';
      bpos := 0;
    }
  }

  // ---- every run

  datatype Op = Append(s: Text, fast: bool) | Fill(c: char, n: nat) | Clear

  function Apply(text: Text, op: Op): Text {
    match op
    case Append(s, _) => text + s
    case Fill(c, n) => text + Repeated(c, n)
    case Clear => ""
  }

  function WrittenBy(ops: seq<Op>): Text {
    if ops == [] then "" else Apply(WrittenBy(ops[..|ops| - 1]), ops[|ops| - 1])
  }

  // The longest text on the way
  function Peak(ops: seq<Op>): nat {
    if ops == [] then 0 else Max(Peak(ops[..|ops| - 1]), |WrittenBy(ops)|)
  }

  // When the size is too small it becomes twice as much, or eight more than is needed if that is more; an append needs
  // one for the terminator.
  function SizeWith(size: nat, length: nat, op: Op): nat {
    var needed := match op
      case Append(s, _) => length + |s| + 1
      case Fill(_, n) => length + n
      case Clear => 0;
    if needed <= size then size else if 2 * size < needed + 8 then needed + 8 else 2 * size
  }

  // It is 32 to begin with.
  function SizeAfter(ops: seq<Op>): nat {
    if ops == [] then 32
    else SizeWith(SizeAfter(ops[..|ops| - 1]), |WrittenBy(ops[..|ops| - 1])|, ops[|ops| - 1])
  }

  method Perform(pb: Printbuf, op: Op)
    requires pb.Valid()
    modifies pb, pb.buf
    ensures pb.Valid() && (pb.buf == old(pb.buf) || fresh(pb.buf))
    ensures pb.Contents() == Apply(old(pb.Contents()), op) && pb.peak == Max(old(pb.peak), |pb.Contents()|)
    ensures pb.buf.Length == SizeWith(old(pb.buf.Length), |old(pb.Contents())|, op)
  {
    match op {
      case Append(s, fast) => if fast { pb.MemAppendFast(s); } else { pb.MemAppend(s); }
      case Fill(c, n) => pb.MemSet(-1, c, n);
      case Clear => pb.Reset();
    }
  }

  lemma NothingYet()
    ensures WrittenBy([]) == "" && Peak([]) == 0 && SizeAfter([]) == 32
  {
  }

  lemma OneMoreOp(ops: seq<Op>, i: nat)
    requires i < |ops|
    ensures WrittenBy(ops[..i + 1]) == Apply(WrittenBy(ops[..i]), ops[i])
    ensures Peak(ops[..i + 1]) == Max(Peak(ops[..i]), |WrittenBy(ops[..i + 1])|)
    ensures SizeAfter(ops[..i + 1]) == SizeWith(SizeAfter(ops[..i]), |WrittenBy(ops[..i])|, ops[i])
  {
    assert ops[..i + 1][..i] == ops[..i];
  }

  // However appends, fills and resets follow each other, the buffer holds what they wrote, and its
  // size stays within the larger of 32 and twice the longest text.
  method Replay(ops: seq<Op>) returns (text: Text, size: nat)
    ensures text == WrittenBy(ops)
    ensures size == SizeAfter(ops) && |text| <= size <= Bound(Peak(ops))
  {
    hide WrittenBy, Peak, SizeAfter, SizeWith, Apply;
    NothingYet();
    var pb := new Printbuf();
    var i := 0;
    assert ops[..0] == [];
    while i < |ops|
      invariant 0 <= i <= |ops|
      invariant fresh(pb) && fresh(pb.buf) && pb.Valid()
      invariant pb.Contents() == WrittenBy(ops[..i]) && pb.peak == Peak(ops[..i])
      invariant pb.buf.Length == SizeAfter(ops[..i])
    {
      OneMoreOp(ops, i);
      Perform(pb, ops[i]);
      i := i + 1;
    }
    assert ops[..i] == ops;
    text, size := pb.buf[..pb.bpos], pb.buf.Length;
  }
}
