/** FileSystem (FileSystem.h/.cpp): the path splitter and one file handle
    with its read/write mode guard and its length-prefixed string format.
    A file is its bytes: opening for read takes the file's contents (None
    when CreateFile fails), and what the handle writes is collected in
    `written`. Files are written and read back whole; short reads from the
    operating system are not modelled. */
module FileSystemModel {
  import opened Wrappers

  newtype byte = x: int | 0 <= x < 256

  const DwordRange: nat := 0x1_0000_0000

  predicate IsSeparator(c: char) {
    c == '/' || c == '\\'
  }

  /** find_last_of("/\\"): the index of the last separator, if any. */
  function LastSeparator(path: string): (r: Option<nat>)
    ensures r.None? <==> forall k :: 0 <= k < |path| ==> !IsSeparator(path[k])
    ensures r.Some? ==>
      (r.value < |path| && IsSeparator(path[r.value])
       && forall k :: r.value < k < |path| ==> !IsSeparator(path[k]))
  {
    if |path| == 0 then None
    else if IsSeparator(path[|path| - 1]) then Some(|path| - 1)
    else LastSeparator(path[..|path| - 1])
  }

  /** DIRECTORY_AND_FILE_NAME. */
  datatype DirectoryAndFile = DirectoryAndFile(directoryNames: string, fileName: string)

  function SplitPathFile(fullPath: string): (r: DirectoryAndFile)
    ensures LastSeparator(fullPath).None? ==> r == DirectoryAndFile("", fullPath)
    ensures LastSeparator(fullPath).Some? ==>
      exists sep :: IsSeparator(sep) && r.directoryNames + [sep] + r.fileName == fullPath
    ensures forall k :: 0 <= k < |r.fileName| ==> !IsSeparator(r.fileName[k])
    ensures |fullPath| > 0 && IsSeparator(fullPath[|fullPath| - 1]) ==> r.fileName == ""
  {
    match LastSeparator(fullPath)
    case None => DirectoryAndFile("", fullPath)
    case Some(i) =>
      var r := DirectoryAndFile(fullPath[..i], fullPath[i + 1..]);
      assert r.directoryNames + [fullPath[i]] + r.fileName == fullPath;
      r
  }

  function Pow256(k: nat): (p: nat)
    ensures p > 0
  {
    if k == 0 then 1 else 256 * Pow256(k - 1)
  }

  /** The first `k` little-endian bytes of `n`. */
  function ToLe(n: nat, k: nat): (r: seq<byte>)
    ensures |r| == k
  {
    if k == 0 then [] else [(n % 256) as byte] + ToLe(n / 256, k - 1)
  }

  /** The number a little-endian byte string stands for. */
  function FromLe(b: seq<byte>): (n: nat)
    ensures n < Pow256(|b|)
  {
    if |b| == 0 then 0 else b[0] as nat + 256 * FromLe(b[1..])
  }

  lemma {:induction false} LeRoundTrip(n: nat, k: nat)
    requires n < Pow256(k)
    ensures FromLe(ToLe(n, k)) == n
  {
    if k > 0 {
      var p := Pow256(k - 1);
      var q := n / 256;
      assert n == 256 * q + n % 256;
      var r := ToLe(n, k);
      assert r[1..] == ToLe(q, k - 1);
      LeRoundTrip(q, k - 1);
      assert r[0] as nat == n % 256;
    }
  }

  /** A uint32 as the four bytes WriteUInt32 copies out (little-endian). */
  function Le32(n: nat): (r: seq<byte>)
    requires n < DwordRange
    ensures |r| == 4 && FromLe(r) == n
  {
    assert Pow256(4) == DwordRange;
    LeRoundTrip(n, 4);
    ToLe(n, 4)
  }

  /** WriteString's layout: the length narrowed to uint32, then that many
      bytes of the string. */
  function EncodeString(s: seq<byte>): (r: seq<byte>)
    ensures |s| < DwordRange ==> |r| == 4 + |s|
  {
    var len := |s| % DwordRange;
    Le32(len) + s[..len]
  }

  /** ReadString's reading of a byte stream: the string and the bytes after
      it, or None when the stream ends early. */
  function DecodeString(stream: seq<byte>): Option<(seq<byte>, seq<byte>)> {
    if |stream| < 4 then None
    else
      var len := FromLe(stream[..4]);
      if |stream| - 4 < len then None
      else Some((stream[4..4 + len], stream[4 + len..]))
  }

  /** Reading back what WriteString wrote yields the string, and leaves
      the stream just after it. */
  lemma StringRoundTrip(s: seq<byte>, rest: seq<byte>)
    requires |s| < DwordRange
    ensures DecodeString(EncodeString(s) + rest) == Some((s, rest))
  {
    var stream := EncodeString(s) + rest;
    assert stream[..4] == Le32(|s|);
    assert stream[4..4 + |s|] == s;
    assert stream[4 + |s|..] == rest;
  }

  /** A string of 2^32 bytes or more loses its tail: only the narrowed
      length is written, so reading back gives a shorter string. */
  lemma LongStringTruncated(s: seq<byte>)
    requires |s| >= DwordRange
    ensures DecodeString(EncodeString(s)).Some?
    ensures |DecodeString(EncodeString(s)).value.0| == |s| % DwordRange < |s|
  {
    var len := |s| % DwordRange;
    var stream := EncodeString(s);
    assert stream[..4] == Le32(len);
  }

  class FileSystem {
    /** m_hFile != INVALID_HANDLE_VALUE. */
    var open: bool
    var readMode: bool
    /** The bytes still to be read through an open read handle. */
    var unread: seq<byte>
    /** The bytes written through the handle since it was opened. */
    var written: seq<byte>

    constructor ()
      ensures !open && !readMode && unread == [] && written == []
    {
      open, readMode := false, false;
      unread, written := [], [];
    }

    function IsOpen(): (r: bool)
      reads this
      ensures r <==> open
    {
      open
    }

    /** OpenForRead: read mode is set whether or not the open succeeds. */
    method OpenForRead(path: string, contents: Option<seq<byte>>) returns (ok: bool)
      modifies this
      ensures readMode && ok == open && ok == contents.Some?
      ensures ok ==> unread == contents.value
      ensures written == old(written)
    {
      readMode := true;
      open := contents.Some?;
      if contents.Some? {
        unread := contents.value;
      }
      ok := open;
    }

    /** OpenForWrite: CREATE_ALWAYS, so a successful open starts empty. */
    method OpenForWrite(path: string, created: bool) returns (ok: bool)
      modifies this
      ensures !readMode && ok == open && ok == created
      ensures ok ==> written == []
    {
      readMode := false;
      open := created;
      if created {
        written := [];
      }
      ok := open;
    }

    /** Close: nothing on a closed handle; otherwise closed and out of read
      mode. */
    method Close()
      modifies this
      ensures !old(open) ==> open == old(open) && readMode == old(readMode)
      ensures old(open) ==> !open && !readMode
      ensures unread == old(unread) && written == old(written)
    {
      if open {
        open := false;
        readMode := false;
      }
    }

    /** ReadBytes: refused unless open in read mode; otherwise reads up to
      the requested count (narrowed to a DWORD) and succeeds iff exactly
      `size` bytes arrived. */
    method ReadBytes(size: nat) returns (ok: bool, data: seq<byte>)
      modifies this
      ensures !(readMode && open) ==> !ok && unread == old(unread)
      ensures readMode && open ==> data + unread == old(unread)
      ensures readMode && open ==> |data| == (if size % DwordRange <= |old(unread)| then size % DwordRange else |old(unread)|)
      ensures ok <==> readMode && open && |data| == size
      ensures open == old(open) && readMode == old(readMode) && written == old(written)
    {
      if !readMode || !open {
        return false, [];
      }
      var n := size % DwordRange;
      var k := if n <= |unread| then n else |unread|;
      data := unread[..k];
      unread := unread[k..];
      ok := k == size;
    }

    /** WriteBytes: ignored in read mode or when closed. */
    method WriteBytes(data: seq<byte>, size: nat)
      requires size <= |data|
      modifies this
      ensures readMode || !open ==> written == old(written)
      ensures !readMode && open ==> written == old(written) + data[..size % DwordRange]
      ensures open == old(open) && readMode == old(readMode) && unread == old(unread)
    {
      if readMode || !open {
        return;
      }
      written := written + data[..size % DwordRange];
    }

    /** WriteString: the narrowed length, then that many bytes. */
    method WriteString(str: seq<byte>)
      modifies this
      ensures !readMode && open ==> written == old(written) + EncodeString(str)
      ensures readMode || !open ==> written == old(written)
      ensures open == old(open) && readMode == old(readMode) && unread == old(unread)
    {
      var len := |str| % DwordRange;
      WriteBytes(Le32(len), 4);
      WriteBytes(str, len);
    }

    /** WritePlainText: the text and a newline, ignored in read mode or
      when closed. */
    method WritePlainText(str: seq<byte>)
      modifies this
      ensures readMode || !open ==> written == old(written)
      ensures !readMode && open && |str| + 1 < DwordRange ==> written == old(written) + str + [10]
      ensures open == old(open) && readMode == old(readMode) && unread == old(unread)
    {
      if readMode || !open {
        return;
      }
      var line := str + [10];
      written := written + line[..|line| % DwordRange];
    }

    /** ReadString: the length, then the bytes; `outStr` comes back
      unchanged if either read fails. A failed read is a short read, which
      has consumed the rest of the file. */
    method ReadString(outStr: seq<byte>) returns (ok: bool, out: seq<byte>)
      modifies this
      ensures !(readMode && open) ==> !ok && out == outStr
      ensures readMode && open ==> (ok <==> DecodeString(old(unread)).Some?)
      ensures ok ==> out == DecodeString(old(unread)).value.0 && unread == DecodeString(old(unread)).value.1
      ensures !ok ==> out == outStr
      ensures !(readMode && open) ==> unread == old(unread)
      ensures readMode && open && !ok ==> unread == []
      ensures open == old(open) && readMode == old(readMode) && written == old(written)
    {
      var okLen, lenBytes := ReadBytes(4);
      if !okLen {
        return false, outStr;
      }
      var len := FromLe(lenBytes);
      assert Pow256(4) == DwordRange;
      var okData, data := ReadBytes(len);
      assert old(unread) == lenBytes + data + unread;
      assert old(unread)[..4] == lenBytes;
      if !okData {
        return false, outStr;
      }
      assert old(unread)[4..4 + len] == data;
      assert old(unread)[4 + len..] == unread;
      return true, data;
    }
  }
}
