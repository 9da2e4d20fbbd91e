/**
 Writing into an output array: every writer overwrites exactly the bytes it says and returns where
 the next one goes.
 */
module Output {
  import opened Common
  import opened Varint

  /** `s` with `bytes` written over it from `at` on. */
  function Overwrite(s: seq<Byte>, at: nat, bytes: seq<Byte>): (r: seq<Byte>)
    requires at + |bytes| <= |s|
    ensures |r| == |s|
  {
    s[..at] + bytes + s[at + |bytes|..]
  }

  lemma OverwriteTwice(s: seq<Byte>, at: nat, xs: seq<Byte>, ys: seq<Byte>)
    requires at + |xs| + |ys| <= |s|
    ensures Overwrite(Overwrite(s, at, xs), at + |xs|, ys) == Overwrite(s, at, xs + ys)
  {
  }

  /** UnsafeVarint: the continuation bit goes into a byte only once it is known not to be the last. */
  method WriteVarint(v: nat, target: array<Byte>, at: nat) returns (next: nat)
    requires at + |Encode(v)| <= target.Length
    modifies target
    ensures next == at + |Encode(v)|
    ensures target[..] == Overwrite(old(target[..]), at, Encode(v))
  {
    ghost var before := target[..];
    var rest := v;
    ghost var done: seq<Byte> := [];
    target[at] := rest % 256;
    next := at + 1;
    FirstWritten(before, at, rest);
    while rest >= 128
      invariant next == at + |done| + 1 && done + Encode(rest) == Encode(v)
      invariant target[..] == Overwrite(before, at, done + [rest % 256])
      decreases rest
    {
      EncodeNext(done, rest);
      LowSeven(rest);
      done, rest := done + [128 + rest % 128], rest / 128;
      MoreByte(target, next, rest % 256, before, at, done);
      next := next + 1;
    }
  }

  /** Turn on the continuation bit of the byte before `next`, and write one more. */
  method MoreByte(target: array<Byte>, next: nat, byte: Byte, ghost before: seq<Byte>, ghost at: nat,
                  ghost done: seq<Byte>)
    requires done != [] && next == at + |done| < target.Length == |before|
    requires exists b: Byte :: b % 128 + 128 == done[|done| - 1]
               && target[..] == Overwrite(before, at, done[..|done| - 1] + [b])
    modifies target
    ensures target[..] == Overwrite(before, at, done + [byte])
  {
    ghost var b: Byte :| b % 128 + 128 == done[|done| - 1]
      && target[..] == Overwrite(before, at, done[..|done| - 1] + [b]);
    ghost var most, last := done[..|done| - 1], done[|done| - 1];
    assert done == most + [last];
    PatchLast(before, at, most, b, last);
    PushNext(before, at, done, byte);
    assert target[next - 1] == target[..][next - 1];
    target[next - 1] := target[next - 1] % 128 + 128;
    target[next] := byte;
  }

  lemma FirstWritten(before: seq<Byte>, at: nat, v: nat)
    requires at + |Encode(v)| <= |before|
    ensures before[at := v % 256] == Overwrite(before, at, [] + [v % 256])
    ensures [] + Encode(v) == Encode(v)
  {
  }

  lemma PatchLast(before: seq<Byte>, at: nat, done: seq<Byte>, a: Byte, b: Byte)
    requires at + |done| + 1 <= |before|
    ensures Overwrite(before, at, done + [a])[at + |done|] == a
    ensures Overwrite(before, at, done + [a])[at + |done| := b] == Overwrite(before, at, done + [b])
  {
  }

  lemma PushNext(before: seq<Byte>, at: nat, done: seq<Byte>, c: Byte)
    requires at + |done| + 1 <= |before|
    ensures Overwrite(before, at, done)[at + |done| := c] == Overwrite(before, at, done + [c])
  {
  }

  lemma LowSeven(v: nat)
    ensures v % 256 % 128 + 128 == 128 + v % 128
  {
  }

  lemma EncodeNext(done: seq<Byte>, v: nat)
    requires 128 <= v
    ensures done + Encode(v) == done + [128 + v % 128] + Encode(v / 128)
    ensures |Encode(v / 128)| >= 1
  {
    Associate(done, [128 + v % 128], Encode(v / 128));
  }

  /** WriteRaw: a copy. */
  method WriteRaw(bytes: seq<Byte>, target: array<Byte>, at: nat) returns (next: nat)
    requires at + |bytes| <= target.Length
    modifies target
    ensures next == at + |bytes|
    ensures target[..] == Overwrite(old(target[..]), at, bytes)
  {
    ghost var before := target[..];
    var i := 0;
    while i < |bytes|
      invariant 0 <= i <= |bytes|
      invariant target[..] == Overwrite(before, at, bytes[..i])
    {
      target[at + i] := bytes[i];
      CopiedOneMore(before, at, bytes, i);
      i := i + 1;
    }
    assert bytes[..i] == bytes;
    next := at + |bytes|;
  }

  lemma CopiedOneMore(before: seq<Byte>, at: nat, bytes: seq<Byte>, i: nat)
    requires at + |bytes| <= |before| && i < |bytes|
    ensures Overwrite(before, at, bytes[..i])[at + i := bytes[i]] == Overwrite(before, at, bytes[..i + 1])
  {
  }
}
