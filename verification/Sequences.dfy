/** `DAP_SWD_Sequence`: bit sequences written and read in turn. */
module Sequences {
  import opened Words
  import opened Swd
  import opened Framing

  datatype Sequence = Out(bits: nat, data: seq<u8>) | In(bits: nat)

  /** Operations made, bytes read, and whether the command can go on. */
  datatype Played = Played(acts: seq<Act>, out: seq<u8>, ok: bool)

  /** The command's loop: entries are parsed as they are played; `room` is how many bytes
      read the reply holds. */
  function RunSequences(env: PortEnv, room: nat, s: Played, body: seq<u8>, n: nat): Played
    decreases n
  {
    if n == 0 || !s.ok then s
    else if body == [] then s.(ok := false)
    else
      var bits := SequenceBits(body[0]);
      var bytes := DivCeil8(bits);
      if body[0] < 0x80 then
        if |body| < 1 + bytes then s.(ok := false)
        else
          var acts := s.acts + [WriteSequence(bits, body[1..1 + bytes])];
          RunSequences(env, room, s.(acts := acts), body[1 + bytes..], n - 1)
      else if |s.out| + bytes > room then s.(ok := false)
      else
        var acts := s.acts + [ReadSequence(bits)];
        RunSequences(env, room, Played(acts, s.out + BytesRead(env, acts, bytes), true), body[1..], n - 1)
  }

  lemma NoSequences(env: PortEnv, room: nat, s: Played, body: seq<u8>)
    ensures RunSequences(env, room, s, body, 0) == s
  {
  }

  /** One more sequence: cut short, written, not fitting, or read. */
  lemma OneMore(env: PortEnv, room: nat, s: Played, body: seq<u8>, n: nat)
    requires n > 0 && s.ok
    ensures body == [] ==> RunSequences(env, room, s, body, n) == s.(ok := false)
    ensures body != [] ==>
              var bits := SequenceBits(body[0]);
              var bytes := DivCeil8(bits);
              && EntryLen(SwdSequences, body[0]) == (if body[0] < 0x80 then 1 + bytes else 1)
              && RunSequences(env, room, s, body, n) ==
                 if body[0] < 0x80 then
                   if |body| < 1 + bytes then s.(ok := false)
                   else RunSequences(env, room, s.(acts := s.acts + [WriteSequence(bits, body[1..1 + bytes])]),
                                     body[1 + bytes..], n - 1)
                 else if |s.out| + bytes > room then s.(ok := false)
                 else
                   var acts := s.acts + [ReadSequence(bits)];
                   RunSequences(env, room, Played(acts, s.out + BytesRead(env, acts, bytes), true), body[1..], n - 1)
  {
    hide BytesRead, DivCeil8;
  }

  /** The entries of a body that holds them all. */
  function Entries(body: seq<u8>, n: nat): (entries: seq<Sequence>)
    requires ListLen(SwdSequences, body, n).Some?
    ensures |entries| == n
    decreases n
  {
    if n == 0 then []
    else
      var bits, len := SequenceBits(body[0]), EntryLen(SwdSequences, body[0]);
      [if body[0] < 0x80 then Out(bits, body[1..len]) else In(bits)] + Entries(body[len..], n - 1)
  }

  /** The operation an entry stands for. */
  function ActOf(e: Sequence): Act {
    match e
    case Out(bits, data) => WriteSequence(bits, data)
    case In(bits) => ReadSequence(bits)
  }

  function Acts(entries: seq<Sequence>): (acts: seq<Act>)
    ensures |acts| == |entries|
    ensures forall i :: 0 <= i < |acts| ==> acts[i] == ActOf(entries[i])
  {
    seq(|entries|, i requires 0 <= i < |entries| => ActOf(entries[i]))
  }

  /** The bytes read by the last of `acts`, after those read before. */
  function AllRead(env: PortEnv, before: nat, acts: seq<Act>): seq<u8> {
    if |acts| <= before then []
    else
      var earlier, last := AllRead(env, before, acts[..|acts| - 1]), acts[|acts| - 1];
      if last.ReadSequence? then earlier + BytesRead(env, acts, DivCeil8(last.bits)) else earlier
  }

  lemma AllReadMore(env: PortEnv, before: nat, acts: seq<Act>, act: Act)
    requires before <= |acts|
    ensures AllRead(env, before, acts + [act])
         == if act.ReadSequence? then AllRead(env, before, acts) + BytesRead(env, acts + [act], DivCeil8(act.bits))
            else AllRead(env, before, acts)
  {
    assert (acts + [act])[..|acts|] == acts;
  }

  lemma {:induction false} AllReadGrows(env: PortEnv, before: nat, acts: seq<Act>, more: seq<Act>)
    requires before <= |acts|
    ensures AllRead(env, before, acts) <= AllRead(env, before, acts + more)
    decreases |more|
  {
    if more == [] {
      assert acts + more == acts;
    } else {
      var front, last := more[..|more| - 1], more[|more| - 1];
      AllReadGrows(env, before, acts, front);
      AllReadMore(env, before, acts + front, last);
      assert acts + more == acts + front + [last];
    }
  }

  /** A complete command makes exactly its sequences, in order, and answers exactly the
      bytes they read, unless those do not fit in the reply. */
  lemma {:induction false} SequencesPlayed(env: PortEnv, room: nat, before: nat, s: Played, body: seq<u8>, n: nat)
    requires ListLen(SwdSequences, body, n).Some?
    requires s.ok && before <= |s.acts| && s.out == AllRead(env, before, s.acts) && |s.out| <= room
    ensures var r, acts := RunSequences(env, room, s, body, n), s.acts + Acts(Entries(body, n));
            && (r.ok <==> |AllRead(env, before, acts)| <= room)
            && (r.ok ==> r.acts == acts && r.out == AllRead(env, before, acts))
    decreases n
  {
    hide BytesRead, AllRead;
    var acts := s.acts + Acts(Entries(body, n));
    if n == 0 {
      assert acts == s.acts;
    } else {
      var e, rest := Entries(body, n)[0], body[EntryLen(SwdSequences, body[0])..];
      var acts' := s.acts + [ActOf(e)];
      assert Acts(Entries(body, n)) == [ActOf(e)] + Acts(Entries(rest, n - 1));
      assert acts == acts' + Acts(Entries(rest, n - 1));
      AllReadMore(env, before, s.acts, ActOf(e));
      var out := AllRead(env, before, acts');
      if |out| <= room {
        SequencesPlayed(env, room, before, Played(acts', out, true), rest, n - 1);
      } else {
        AllReadGrows(env, before, acts', Acts(Entries(rest, n - 1)));
      }
    }
  }
}
