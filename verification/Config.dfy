/** The configuration protocol: topologies moved in chunks between a session and the
    probe's service, then committed to flash. Encoding, validation and the flash store
    are arbitrary. */
module Config {
  import opened Words

  const CMD_GET_TOPOLOGY: u8 := 0x81
  const CMD_SET_TOPOLOGY: u8 := 0x82
  const CMD_COMMIT: u8 := 0x83

  const STATUS_OK: u8 := 0
  const STATUS_ERR_DECODE: u8 := 1
  const STATUS_ERR_INVALID: u8 := 2
  const STATUS_ERR_FLASH: u8 := 3
  const STATUS_ERR_BAD_REQUEST: u8 := 4

  const TOPOLOGY_BUF_LEN: nat := 128
  const GET_CHUNK: nat := 61
  const SET_CHUNK: nat := 61

  /** Encoding and decoding, validity, and whether storing an item after others succeeds. */
  datatype Codec<!T> = Codec(
    encode: T -> seq<u8>, decode: seq<u8> -> Option<T>, valid: T -> bool, stores: (seq<T>, T) -> bool)

  ghost predicate Invertible<T(!new)>(c: Codec<T>) {
    forall t {:trigger c.encode(t)} :: c.decode(c.encode(t)) == Some(t)
  }

  /** The probe's side. */
  class ConfigService<T(!new)> {
    const codec: Codec<T>
    const active: T
    const buf: array<u8>
    var filled: nat
    /** The items handed to the flash store so far. */
    var flash: seq<T>

    ghost predicate Valid()
      reads this
    {
      buf.Length == 128 && filled <= 128
    }

    /** The staged bytes. */
    ghost function Staged(): seq<u8>
      requires Valid()
      reads this, buf
    {
      buf[..filled]
    }

    constructor (codec: Codec<T>, active: T)
      ensures Valid() && Staged() == [] && flash == [] && this.codec == codec && this.active == active && fresh(buf)
    {
      this.codec, this.active := codec, active;
      buf := new u8[TOPOLOGY_BUF_LEN](_ => 0);
      filled := 0;
      flash := [];
    }

    /** `get_topology`: the bytes of the active encoding from an offset on. */
    method GetTopology(request: seq<u8>) returns (response: seq<u8>)
      requires request != [] && request[0] == 0x81
      ensures var encoded := codec.encode(active);
              var offset: nat := if |request| > 1 then request[1] else 0;
              if |encoded| > 128 then response == [0x81, 1]
              else if offset > |encoded| then response == [0x81, 4]
              else
                var end := if |encoded| - offset < 61 then |encoded| else offset + 61;
                response == [0x81, 0, |encoded|] + encoded[offset..end]
    {
      var encoded := codec.encode(active);
      if |encoded| > TOPOLOGY_BUF_LEN {
        return [CMD_GET_TOPOLOGY, STATUS_ERR_DECODE];
      }
      var offset: nat := if |request| > 1 then request[1] else 0;
      if offset > |encoded| {
        return [CMD_GET_TOPOLOGY, STATUS_ERR_BAD_REQUEST];
      }
      var chunk := if |encoded| - offset < GET_CHUNK then |encoded| - offset else GET_CHUNK;
      response := [CMD_GET_TOPOLOGY, STATUS_OK, |encoded|] + encoded[offset..offset + chunk];
    }

    /** `set_topology`: stage a chunk that follows on what is staged; offset 0 starts anew. */
    method SetTopology(request: seq<u8>) returns (status: u8)
      requires Valid() && request != []
      modifies this, buf
      ensures Valid() && flash == old(flash)
      ensures |request| == 1 ==> status == 4 && Staged() == old(Staged())
      ensures |request| > 1 ==>
                var before := if request[1] == 0 then [] else old(Staged());
                var ok := request[1] == |before| && |before| + |request| - 2 <= 128;
                && status == (if ok then 0 else 4)
                && Staged() == before + if ok then request[2..] else []
    {
      if |request| == 1 {
        return STATUS_ERR_BAD_REQUEST;
      }
      var offset, data := request[1], request[2..];
      if offset == 0 {
        filled := 0;
      }
      if offset != filled || filled + |data| > TOPOLOGY_BUF_LEN {
        return STATUS_ERR_BAD_REQUEST;
      }
      ghost var before := Staged();
      var i := 0;
      while i < |data|
        invariant 0 <= i <= |data| && Valid() && flash == old(flash) && filled == |before|
        invariant buf[..filled + i] == before + data[..i]
      {
        buf[filled + i] := data[i];
        i := i + 1;
      }
      filled := filled + |data|;
      return STATUS_OK;
    }

    /** `commit`: store the staged topology if it is whole, decodes and is valid. */
    method Commit(request: seq<u8>) returns (status: u8)
      requires Valid() && request != []
      modifies this
      ensures Valid() && Staged() == old(Staged())
      ensures var whole := |request| > 1 && |Staged()| == request[1];
              var t := codec.decode(Staged());
              if !whole then status == 4 && flash == old(flash)
              else if t.None? then status == 1 && flash == old(flash)
              else if !codec.valid(t.value) then status == 2 && flash == old(flash)
              else
                && flash == old(flash) + [t.value]
                && status == if codec.stores(old(flash), t.value) then 0 else 3
    {
      if |request| == 1 || filled != request[1] {
        return STATUS_ERR_BAD_REQUEST;
      }
      var topo := codec.decode(buf[..filled]);
      if topo.None? {
        return STATUS_ERR_DECODE;
      }
      if !codec.valid(topo.value) {
        return STATUS_ERR_INVALID;
      }
      status := if codec.stores(flash, topo.value) then STATUS_OK else STATUS_ERR_FLASH;
      flash := flash + [topo.value];
    }

    /** `handle`, for the commands about topologies. */
    method Handle(request: seq<u8>) returns (response: seq<u8>)
      requires Valid() && request != []
      modifies this, buf
      ensures Valid()
      ensures request[0] == 0x81 ==>
                && Staged() == old(Staged()) && flash == old(flash)
                && var encoded := codec.encode(active);
                var offset: nat := if |request| > 1 then request[1] else 0;
                offset <= |encoded| <= 128 ==>
                  var end := if |encoded| - offset < 61 then |encoded| else offset + 61;
                  response == [0x81, 0, |encoded|] + encoded[offset..end]
      ensures request[0] == 0x82 ==>
                && flash == old(flash) && |response| == 2 && response[0] == 0x82
                && (|request| > 1 ==>
                      var before := if request[1] == 0 then [] else old(Staged());
                      request[1] == |before| && |before| + |request| - 2 <= 128 ==>
                        response[1] == 0 && Staged() == before + request[2..])
      ensures request[0] == 0x83 ==>
                && Staged() == old(Staged()) && |response| == 2 && response[0] == 0x83
                && (|request| > 1 && |Staged()| == request[1] && codec.decode(Staged()).Some? ==>
                      var t := codec.decode(Staged()).value;
                      && flash == old(flash) + (if codec.valid(t) then [t] else [])
                      && (response[1] == 0 <==> codec.valid(t) && codec.stores(old(flash), t)))
    {
      var command := request[0];
      if command == CMD_GET_TOPOLOGY {
        response := GetTopology(request);
      } else if command == CMD_SET_TOPOLOGY {
        var status := SetTopology(request);
        response := [command, status];
      } else if command == CMD_COMMIT {
        var status := Commit(request);
        response := [command, status];
      } else {
        response := [command, STATUS_ERR_BAD_REQUEST];
      }
    }
  }

  /** `check`: the command is echoed and the status is OK. */
  predicate Checked(response: seq<u8>, command: u8) {
    |response| >= 2 && response[0] == command && response[1] == STATUS_OK
  }

  /** The host's side, alone on the probe. */
  class Session<T(!new)> {
    const service: ConfigService<T>

    constructor (service: ConfigService<T>)
      ensures this.service == service
    {
      this.service := service;
    }

    /** `get_topology`: chunks until the announced length is there. */
    method GetTopology() returns (t: Option<T>)
      requires service.Valid() && Invertible(service.codec)
      requires |service.codec.encode(service.active)| <= 128
      modifies service, service.buf
      ensures service.Valid() && t == Some(service.active) && service.Staged() == old(service.Staged())
      ensures service.flash == old(service.flash)
    {
      var got: seq<u8> := [];
      ghost var encoded := service.codec.encode(service.active);
      while true
        invariant service.Valid() && service.Staged() == old(service.Staged()) && service.flash == old(service.flash)
        invariant |got| <= |encoded| && got == encoded[..|got|]
        decreases |encoded| - |got|
      {
        var response := service.Handle([CMD_GET_TOPOLOGY, |got|]);
        if !Checked(response, CMD_GET_TOPOLOGY) || |response| < 3 {
          return None;
        }
        var total: nat, chunk := response[2], response[3..];
        if |got| >= total {
          break;
        }
        if chunk == [] {
          return None;
        }
        assert chunk == encoded[|got|..|got| + |chunk|];
        got := got + chunk;
        if |got| >= total {
          got := got[..total];
          break;
        }
      }
      assert got == encoded;
      t := service.codec.decode(got);
    }

    /** `set_topology`: the chunks, then the commit. */
    method SetTopology(t: T) returns (ok: bool)
      requires service.Valid() && Invertible(service.codec)
      modifies service, service.buf
      ensures service.Valid()
      ensures var encoded := service.codec.encode(t);
              if |encoded| > 128 then
                !ok && service.Staged() == old(service.Staged()) && service.flash == old(service.flash)
              else
                && service.Staged() == encoded
                && service.flash == old(service.flash) + (if service.codec.valid(t) then [t] else [])
                && (ok <==> service.codec.valid(t) && service.codec.stores(old(service.flash), t))
    {
      var encoded := service.codec.encode(t);
      if |encoded| > TOPOLOGY_BUF_LEN {
        return false;
      }
      var offset: nat := 0;
      while true
        invariant service.Valid() && service.flash == old(service.flash) && offset <= |encoded|
        invariant offset > 0 ==> service.Staged() == encoded[..offset] && offset < |encoded|
        decreases |encoded| - offset
      {
        var end := if offset + SET_CHUNK < |encoded| then offset + SET_CHUNK else |encoded|;
        var response := service.Handle([CMD_SET_TOPOLOGY, offset] + encoded[offset..end]);
        if !Checked(response, CMD_SET_TOPOLOGY) {
          return false;
        }
        assert encoded[..offset] + encoded[offset..end] == encoded[..end];
        offset := end;
        if offset >= |encoded| {
          break;
        }
      }
      assert encoded[..offset] == encoded;
      var response := service.Handle([CMD_COMMIT, |encoded|]);
      ok := Checked(response, CMD_COMMIT);
    }
  }
}
