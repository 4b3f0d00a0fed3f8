/** Copying a file through a fixed window of memory. */
module FileCopy {
  import opened Words

  const CHECKPOINT_WINDOW := 16 * 1024
  const BACKUP_WINDOW := 64 * 1024

  /** Fill the front of `buf` from `offset` on. */
  method ReadExactAt(src: Bytes, offset: nat, buf: array<Byte>, want: nat)
    requires want <= buf.Length && offset + want <= |src|
    modifies buf
    ensures buf[..want] == src[offset..offset + want]
  {
    forall k | 0 <= k < want {
      buf[k] := src[offset + k];
    }
  }

  /** At most `len` bytes of `src`, whatever the window: the windows neither
      overlap nor leave a gap, and the last one stops at the end. */
  method CopyPrefix(src: Bytes, len: nat, window: nat) returns (dst: Bytes)
    requires window > 0
    ensures dst == src[..Min(|src|, len)]
  {
    dst := [];
    var buf := new Byte[window];
    var available := Min(|src|, len);
    var offset := 0;
    while offset < available
      invariant 0 <= offset <= available
      invariant dst == src[..offset]
    {
      var want := Min(available - offset, buf.Length);
      ReadExactAt(src, offset, buf, want);
      dst := dst + buf[..want];
      assert src[..offset] + src[offset..offset + want] == src[..offset + want];
      offset := offset + want;
    }
  }

  /** A checkpoint's copy of a table, and of a manifest cut to its length. */
  method CopyTruncated(src: Bytes, len: nat) returns (dst: Bytes)
    ensures dst == src[..Min(|src|, len)]
    ensures |dst| <= len && (|src| <= len ==> dst == src)
  {
    dst := CopyPrefix(src, len, CHECKPOINT_WINDOW);
  }

  /** A backup's or restore's copy of a table, all of it. */
  method CopyWhole(src: Bytes) returns (dst: Bytes)
    ensures dst == src
  {
    dst := CopyPrefix(src, |src|, BACKUP_WINDOW);
  }
}
