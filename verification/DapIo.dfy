/** Requests taken apart and replies put together, never past either end. */
module DapIo {
  import opened Words

  /** A request payload; `underrun` remembers whether an accessor ran past its end. */
  class Request {
    var data: seq<u8>
    ghost var underrun: bool

    constructor (data: seq<u8>)
      ensures this.data == data && !underrun
    {
      this.data := data;
      underrun := false;
    }

    /** A payload of at least `n` bytes is not run past, and no more than `n` of them are
        taken. */
    twostate predicate Within(n: nat)
      reads this
    {
      n <= |old(data)| ==> underrun == old(underrun) && |old(data)| <= |data| + n
    }

    /** Next `n` bytes. */
    method Bytes(n: nat) returns (r: Option<seq<u8>>)
      modifies this
      ensures if n <= |old(data)|
              then r == Some(old(data)[..n]) && data == old(data)[n..] && underrun == old(underrun)
              else r == None && data == old(data) && underrun
    {
      if |data| < n {
        underrun := true;
        return None;
      }
      r := Some(data[..n]);
      data := data[n..];
    }

    method U8() returns (r: Option<u8>)
      modifies this
      ensures if old(data) != []
              then r == Some(old(data)[0]) && data == old(data)[1..] && underrun == old(underrun)
              else r == None && data == old(data) && underrun
    {
      var b := Bytes(1);
      return if b.None? then None else Some(b.value[0]);
    }

    method U16() returns (r: Option<u16>)
      modifies this
      ensures if 2 <= |old(data)|
              then r == Some(FromLe16(old(data)[..2])) && data == old(data)[2..] && underrun == old(underrun)
              else r == None && data == old(data) && underrun
    {
      var b := Bytes(2);
      return if b.None? then None else Some(FromLe16(b.value));
    }

    method U32() returns (r: Option<u32>)
      modifies this
      ensures if 4 <= |old(data)|
              then r == Some(FromLe32(old(data)[..4])) && data == old(data)[4..] && underrun == old(underrun)
              else r == None && data == old(data) && underrun
    {
      var b := Bytes(4);
      return if b.None? then None else Some(FromLe32(b.value));
    }
  }

  /** A reply so far: the first `len` bytes of `buf`, never none. */
  class Response {
    const buf: array<u8>
    var len: nat

    ghost predicate Valid()
      reads this
    {
      1 <= len <= buf.Length
    }

    ghost function Written(): seq<u8>
      requires Valid()
      reads this, buf
    {
      buf[..len]
    }

    constructor (buf: array<u8>, command: u8)
      requires buf.Length >= 1
      modifies buf
      ensures this.buf == buf && Valid() && Written() == [command]
    {
      this.buf := buf;
      len := 1;
      new;
      buf[0] := command;
    }

    /** Append bytes; false when they do not fit. */
    method Slice(bytes: seq<u8>) returns (ok: bool)
      requires Valid()
      modifies this, buf
      ensures Valid() && ok == (old(len) + |bytes| <= buf.Length)
      ensures Written() == if ok then old(Written()) + bytes else old(Written())
    {
      if len + |bytes| > buf.Length {
        return false;
      }
      ghost var was := Written();
      var i := 0;
      while i < |bytes|
        invariant 0 <= i <= |bytes| && len == old(len)
        invariant buf[..len + i] == was + bytes[..i]
      {
        buf[len + i] := bytes[i];
        i := i + 1;
      }
      len := len + |bytes|;
      return true;
    }

    method U8(v: u8) returns (ok: bool)
      requires Valid()
      modifies this, buf
      ensures Valid() && ok == (old(len) + 1 <= buf.Length)
      ensures Written() == if ok then old(Written()) + [v] else old(Written())
    {
      ok := Slice([v]);
    }

    method U16(v: u16) returns (ok: bool)
      requires Valid()
      modifies this, buf
      ensures Valid() && ok == (old(len) + 2 <= buf.Length)
      ensures Written() == if ok then old(Written()) + Le16(v) else old(Written())
    {
      ok := Slice(Le16(v));
    }

    method U32(v: u32) returns (ok: bool)
      requires Valid()
      modifies this, buf
      ensures Valid() && ok == (old(len) + 4 <= buf.Length)
      ensures Written() == if ok then old(Written()) + Le32(v) else old(Written())
    {
      ok := Slice(Le32(v));
    }

    /** Append `n` zeros; where the first stands, or nothing when they do not fit. */
    method Reserve(n: nat) returns (at: Option<nat>)
      requires Valid()
      modifies this, buf
      ensures Valid() && at == if old(len) + n <= buf.Length then Some(old(len)) else None
      ensures Written() == if at.Some? then old(Written()) + seq(n, _ => 0) else old(Written())
    {
      at := Some(len);
      var ok := Slice(seq(n, _ => 0));
      if !ok {
        at := None;
      }
    }

    /** Drop everything written past `n` bytes. */
    method Truncate(n: nat)
      requires Valid() && 1 <= n
      modifies this
      ensures Valid() && len == if n < old(len) then n else old(len)
    {
      if n < len {
        len := n;
      }
    }

    /** Overwrite a byte written earlier. */
    method SetU8(at: nat, v: u8)
      requires Valid() && at < buf.Length
      modifies buf
      ensures buf[..] == old(buf[..])[at := v]
      ensures at < len ==> Written() == old(Written())[at := v]
    {
      buf[at] := v;
    }

    method SetU16(at: nat, v: u16)
      requires Valid() && at + 1 < len
      modifies buf
      ensures Written() == old(Written())[at := v % 0x100][at + 1 := v / 0x100]
    {
      buf[at], buf[at + 1] := v % 0x100, v / 0x100;
    }
  }
}
