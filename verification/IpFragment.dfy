/** Fragmentation on output and the length trim on input, for datagrams without options. */
module IpFragment {
  import opened Bytes
  import opened TcpReass
  import opened TcpChain

  const HLEN := 20

  /** What tells datagrams apart: `ip_id`, `ip_src`, `ip_dst` and `ip_p`. */
  datatype Key = Key(id: nat, src: nat, dst: nat, p: nat)

  /** The header fields that matter here; `off` counts units of 8 bytes, `len` header and data. */
  datatype Ip = Ip(key: Key, off: nat, mf: bool, df: bool, len: nat)

  /** A packet on its way; `body` is the chain behind the header, with any padding. */
  datatype Frame = Frame(ip: Ip, body: Chain)

  datatype Sent = Frames(frames: seq<Frame>) | TooBig

  /** A fragment: where its data belongs, the data, and, as its flag, MF. */
  type Frag = Held

  function Take(s: seq<byte>, n: int): seq<byte> {
    if 0 <= n <= |s| then s[..n] else s
  }

  /** What a frame carries. */
  function FragOf(f: Frame): Frag {
    Held(8 * f.ip.off, Take(Flatten(f.body), f.ip.len - HLEN), f.ip.mf)
  }

  /** Data that starts at `pos`, cut into pieces of `len` bytes. */
  function Pieces(pos: int, data: seq<byte>, more: bool, len: nat): seq<Frag>
    requires len > 0
    decreases |data|
  {
    if |data| <= len then [Held(pos, data, more)]
    else [Held(pos, data[..len], true)] + Pieces(pos + len, data[len..], more, len)
  }

  // ----- chains

  /** `yhdup_range`: the first loop, to the block that holds byte `off`. */
  method SkipBlocks(bp0: Chain, off0: nat) returns (bp: Chain, off: nat)
    requires off0 < |Flatten(bp0)|
    ensures bp != [] && (off == 0 || off < |bp[0]|) && off <= |bp[0]|
    ensures Flatten(bp0)[off0..] == Flatten(bp)[off..] && off <= |Flatten(bp)|
  {
    hide Flatten;
    bp, off := bp0, off0;
    FlattenNone();
    while off > 0
      invariant off <= off0 && off < |Flatten(bp)| && bp != [] && Flatten(bp0)[off0..] == Flatten(bp)[off..]
      decreases |bp|
    {
      FlattenCons(bp[0], bp[1..]);
      assert [bp[0]] + bp[1..] == bp;
      if off < |bp[0]| {
        break;
      }
      DropDrop(Flatten(bp), |bp[0]|, off - |bp[0]|);
      assert Flatten(bp)[|bp[0]|..] == Flatten(bp[1..]);
      off := off - |bp[0]|;
      bp := bp[1..];
    }
  }

  lemma TakeMore(s: seq<byte>, b: seq<byte>, rest: seq<byte>, off: nat, n: nat)
    requires s == b + rest && off <= |b|
    ensures off + n <= |b| ==> s[off..off + n] == b[off..off + n]
    ensures s[off..][|b| - off..] == rest && s[off..][..|b| - off] == b[off..]
  {
  }

  /** One block of the copy. */
  lemma CopyBlock(bp: Chain, off: nat, head: Chain, want: seq<byte>, at: nat, size: nat)
    requires bp != [] && off + size <= |bp[0]| && at <= |want| && at + size <= |want|
    requires Flatten(head) == want[..at] && want[at..] == Flatten(bp)[off..]
    ensures Flatten(head + [bp[0][off..off + size]]) == want[..at + size]
    ensures off + size == |bp[0]| ==> want[at + size..] == Flatten(bp[1..])[0..]
  {
    hide Flatten;
    var b, rest := bp[0], bp[1..];
    assert [b] + rest == bp;
    FlattenCons(b, rest);
    FlattenLast(head, b[off..off + size], 0);
    TakeMore(Flatten(bp), b, Flatten(rest), off, size);
    NextTake(want, at, size);
    assert Flatten(bp)[off..][..size] == b[off..off + size];
  }

  /** `yhdup_range`: a copy of a range that the chain has. */
  method DupRange(bp0: Chain, off0: nat, len0: nat) returns (head: Chain)
    requires off0 + len0 <= |Flatten(bp0)| && len0 > 0
    ensures Flatten(head) == Flatten(bp0)[off0..off0 + len0]
  {
    hide Flatten;
    ghost var want, at: nat := Flatten(bp0)[off0..], 0;
    var bp, off: nat := SkipBlocks(bp0, off0);
    var len: nat := len0;
    head := [];
    FlattenNone();
    while len > 0
      invariant at + len == len0 && Flatten(head) == want[..at]
      invariant len > 0 ==> bp != [] && off <= |bp[0]| && off <= |Flatten(bp)| && want[at..] == Flatten(bp)[off..]
      decreases |bp|
    {
      var size := if len < |bp[0]| - off then len else |bp[0]| - off;
      CopyBlock(bp, off, head, want, at, size);
      head := head + [bp[0][off..off + size]];
      len, at := len - size, at + size;
      bp, off := bp[1..], 0;
      if len > 0 {
        assert |want[at..]| > 0;
      }
    }
    assert want[..len0] == Flatten(bp0)[off0..off0 + len0];
  }

  lemma NextTake(s: seq<byte>, at: nat, n: nat)
    requires at + n <= |s|
    ensures s[..at + n] == s[..at] + s[at..][..n] && s[at..][n..] == s[at + n..]
  {
  }

  /** `yhpadpckt`: the message made longer by `cnt` bytes of no meaning, in its last block as far as that
      has room. */
  method Pad(bp: Chain, cnt: int, room: nat, junk: seq<byte>) returns (r: Chain)
    requires bp != [] && cnt <= |junk|
    ensures cnt <= 0 ==> r == bp
    ensures cnt > 0 ==> Flatten(r) == Flatten(bp) + junk[..cnt]
  {
    if cnt <= 0 {
      return bp;
    }
    hide Flatten;
    var n := if room < cnt then room else cnt;
    var k := |bp| - 1;
    var last := bp[k];
    assert bp[..k] + [last] == bp;
    FlattenLast(bp[..k], last, 0);
    FlattenLast(bp[..k], last + junk[..n], 0);
    assert Flatten(bp[..k]) + (last + junk[..n]) == Flatten(bp) + junk[..n];
    r := bp[..k] + [last + junk[..n]];
    if cnt - n > 0 {
      FlattenLast(r, junk[n..cnt], 0);
      assert Flatten(bp) + junk[..n] + junk[n..cnt] == Flatten(bp) + junk[..cnt];
      r := r + [junk[n..cnt]];
    } else {
      assert junk[..n] == junk[..cnt];
    }
  }

  // ----- the fragment loop

  function RoundDown(n: int): int {
    n - n % 8
  }

  lemma PiecesLast(pos: int, data: seq<byte>, more: bool, len: nat)
    requires 0 < |data| <= len
    ensures Pieces(pos, data, more, len) == [Held(pos, data, more)]
  {
  }

  lemma PiecesNext(pos: int, data: seq<byte>, more: bool, len: nat)
    requires |data| > len > 0
    ensures Pieces(pos, data, more, len) == [Held(pos, data[..len], true)] + Pieces(pos + len, data[len..], more, len)
  {
  }

  /** A frame is well made: within the MTU, not shorter than the interface wants it. */
  ghost predicate WellMade(f: Frame, key: Key, df: bool, maxtu: int, mintu: int) {
    f.ip.key == key && f.ip.df == df && f.ip.len == HLEN + |FragOf(f).data| <= maxtu
    && |Flatten(f.body)| == (if f.ip.len < mintu then mintu - HLEN else f.ip.len - HLEN)
  }

  lemma PaddedFrag(f: Frame, text: seq<byte>, pad: seq<byte>)
    requires Flatten(f.body) == text + pad && f.ip.len == HLEN + |text|
    ensures FragOf(f) == Held(8 * f.ip.off, text, f.ip.mf)
  {
    assert (text + pad)[..|text|] == text;
  }

  /** One turn of the loop. */
  method MakeFrame(ip: Ip, bp1: Chain, off: nat, len: nat, mf: bool, mintu: int, room: nat, junk: seq<byte>)
    returns (f: Frame)
    requires off % 8 == 0 && 0 < len && off + len <= |Flatten(bp1)| && mintu <= |junk|
    ensures FragOf(f) == Held(8 * ip.off + off, Flatten(bp1)[off..off + len], mf)
    ensures forall maxtu :: HLEN + len <= maxtu ==> WellMade(f, ip.key, ip.df, maxtu, mintu)
  {
    hide Flatten;
    var body := DupRange(bp1, off, len);
    FlattenNone();
    var text := Flatten(bp1)[off..off + len];
    var h := Ip(ip.key, ip.off + off / 8, mf, ip.df, HLEN + len);
    var padded := Pad(body, mintu - h.len, room, junk);
    f := Frame(h, padded);
    if mintu - h.len > 0 {
      PaddedFrag(f, text, junk[..mintu - h.len]);
    } else {
      assert text + [] == text;
      PaddedFrag(f, text, []);
    }
  }

  ghost predicate Carry(frames: seq<Frame>, frags: seq<Frag>, key: Key, df: bool, maxtu: int, mintu: int) {
    |frames| == |frags|
    && forall i :: 0 <= i < |frames| ==> FragOf(frames[i]) == frags[i] && WellMade(frames[i], key, df, maxtu, mintu)
  }

  /** What an interface makes of a fragment: sent as it is when it fits, otherwise cut up, or refused when it may
      not be or there is not room for 8 bytes of data. */
  function Sends(h: Frag, df: bool, maxtu: int): seq<Frag> {
    if HLEN + |h.data| <= maxtu then [h]
    else if df || RoundDown(maxtu - HLEN) < 8 then []
    else Pieces(h.pos, h.data, h.flag, RoundDown(maxtu - HLEN))
  }

  lemma SendsIs(h: Frag, df: bool, maxtu: int)
    ensures HLEN + |h.data| <= maxtu ==> Sends(h, df, maxtu) == [h]
    ensures var len := RoundDown(maxtu - HLEN);
            HLEN + |h.data| > maxtu && !df && len >= 8 ==> Sends(h, df, maxtu) == Pieces(h.pos, h.data, h.flag, len)
  {
  }

  /** From the size check on. */
  method Output(ip: Ip, bp1: Chain, maxtu: int, mintu: int, room: nat, junk: seq<byte>) returns (r: Sent)
    requires ip.len == HLEN + |Flatten(bp1)| <= 32767 && bp1 != [] && mintu <= |junk|
    ensures r.TooBig? <==> ip.len > maxtu && (ip.df || RoundDown(maxtu - HLEN) < 8)
    ensures r.Frames? ==>
              Carry(r.frames, Sends(Held(8 * ip.off, Flatten(bp1), ip.mf), ip.df, maxtu), ip.key, ip.df, maxtu, mintu)
  {
    SendsIs(Held(8 * ip.off, Flatten(bp1), ip.mf), ip.df, maxtu);
    hide Flatten, WellMade, FragOf, Sends;
    if ip.len <= maxtu {
      var f := Whole(ip, bp1, maxtu, mintu, room, junk);
      return Frames([f]);
    }
    if ip.df {
      return TooBig;
    }
    var len := RoundDown(maxtu - HLEN);
    if len < 8 {
      return TooBig;
    }
    var frames := Fragments(ip, bp1, len, maxtu, mintu, room, junk);
    return Frames(frames);
  }

  /** The fragment loop. */
  method Fragments(ip: Ip, bp1: Chain, len0: nat, maxtu: int, mintu: int, room: nat, junk: seq<byte>)
    returns (frames: seq<Frame>)
    requires ip.len == HLEN + |Flatten(bp1)| && ip.len > maxtu >= HLEN + len0 && len0 >= 8 && len0 % 8 == 0
    requires mintu <= |junk|
    ensures Carry(frames, Pieces(8 * ip.off, Flatten(bp1), ip.mf, len0), ip.key, ip.df, maxtu, mintu)
  {
    hide Flatten, WellMade, FragOf, Pieces, Carry;
    CarryNone(ip.key, ip.df, maxtu, mintu);
    ghost var data := Flatten(bp1);
    var len := len0;
    var total := ip.len - HLEN;
    ghost var all := Pieces(8 * ip.off, data, ip.mf, len0);
    frames := [];
    var off: nat := 0;
    ghost var done: seq<Frag> := [];
    assert data[0..] == data && done + all == all;
    while off < total
      invariant 0 <= off <= total && (off % 8 == 0 || off == total)
      invariant off < total ==> len == len0 && done + Pieces(8 * ip.off + off, data[off..], ip.mf, len0) == all
      invariant off == total ==> done == all
      invariant Carry(frames, done, ip.key, ip.df, maxtu, mintu)
      decreases total - off
    {
      var more := ip.mf;
      if off + len >= total {
        len := total - off;
        PiecesLast(8 * ip.off + off, data[off..], ip.mf, len0);
        assert data[off..off + len] == data[off..];
        Regroup(done, Held(8 * ip.off + off, data[off..off + len], more), []);
      } else {
        more := true;
        PiecesNext(8 * ip.off + off, data[off..], ip.mf, len0);
        assert data[off..off + len] == data[off..][..len] && data[off..][len..] == data[off + len..];
        Regroup(done, Held(8 * ip.off + off, data[off..off + len], more),
                Pieces(8 * ip.off + off + len, data[off + len..], ip.mf, len0));
      }
      var f := MakeFrame(ip, bp1, off, len, more, mintu, room, junk);
      ghost var h := Held(8 * ip.off + off, data[off..off + len], more);
      CarryMore(frames, done, f, h, ip.key, ip.df, maxtu, mintu);
      frames, done := frames + [f], done + [h];
      off := off + len;
    }
  }

  lemma Regroup(done: seq<Frag>, h: Frag, rest: seq<Frag>)
    ensures done + ([h] + rest) == (done + [h]) + rest && done + [h] + [] == done + [h]
  {
  }

  lemma CarryNone(key: Key, df: bool, maxtu: int, mintu: int)
    ensures Carry([], [], key, df, maxtu, mintu)
  {
  }

  lemma CarryMore(frames: seq<Frame>, frags: seq<Frag>, f: Frame, h: Frag, key: Key, df: bool,
                  maxtu: int, mintu: int)
    requires Carry(frames, frags, key, df, maxtu, mintu) && FragOf(f) == h && WellMade(f, key, df, maxtu, mintu)
    ensures Carry(frames + [f], frags + [h], key, df, maxtu, mintu)
  {
  }

  method Whole(ip: Ip, bp1: Chain, maxtu: int, mintu: int, room: nat, junk: seq<byte>) returns (f: Frame)
    requires HLEN + |Flatten(bp1)| == ip.len <= maxtu && bp1 != [] && mintu <= |junk|
    ensures FragOf(f) == Held(8 * ip.off, Flatten(bp1), ip.mf) && WellMade(f, ip.key, ip.df, maxtu, mintu)
  {
    hide Flatten;
    var padded := Pad(bp1, mintu - ip.len, room, junk);
    f := Frame(ip, padded);
    if mintu - ip.len > 0 {
      PaddedFrag(f, Flatten(bp1), junk[..mintu - ip.len]);
    } else {
      assert Flatten(bp1) + [] == Flatten(bp1);
      PaddedFrag(f, Flatten(bp1), []);
    }
  }

  // ----- the length trim

  /** `adjmsg(bp, -n)`: n bytes off the end. */
  method AdjTail(bp: Chain, n0: nat) returns (r: Chain)
    requires n0 <= |Flatten(bp)| && bp != []
    ensures Flatten(r) == Flatten(bp)[..|Flatten(bp)| - n0] && r != []
  {
    hide Flatten;
    r := bp;
    var n: nat := n0;
    while n > 0
      invariant n <= n0 && n <= |Flatten(r)| && r != []
              && Flatten(r)[..|Flatten(r)| - n] == Flatten(bp)[..|Flatten(bp)| - n0]
      decreases |r|
    {
      FlattenNone();
      var k := |r| - 1;
      var last := r[k];
      assert r[..k] + [last] == r;
      FlattenLast(r[..k], last, 0);
      if n <= |last| {
        FlattenLast(r[..k], last, |last| - n);
        r := r[..k] + [last[..|last| - n]];
        return;
      }
      assert (Flatten(r[..k]) + last)[..|Flatten(r[..k])| + |last| - n]
              == Flatten(r[..k])[..|Flatten(r[..k])| - (n - |last|)];
      n := n - |last|;
      r := r[..k];
      FlattenNone();
    }
  }

  /** Buffers cut to what the header says; too little data and the packet is bad. */
  method TrimLength(bp: Chain, len: nat) returns (ok: bool, r: Chain)
    requires bp != []
    ensures ok <==> len <= |Flatten(bp)|
    ensures ok ==> Flatten(r) == Flatten(bp)[..len] && r != []
  {
    hide Flatten;
    var i := 0 - len;
    var j := 0;
    FlattenNone();
    while j < |bp|
      invariant 0 <= j <= |bp| && i == |Flatten(bp[..j])| - len
    {
      FlattenLast(bp[..j], bp[j], 0);
      assert bp[..j] + [bp[j]] == bp[..j + 1];
      i := i + |bp[j]|;
      j := j + 1;
    }
    assert bp[..j] == bp;
    ok, r := true, bp;
    if i != 0 {
      if i < 0 {
        ok := false;
        return;
      }
      var k: nat := |bp| - 1;
      var last := bp[k];
      assert bp[..k] + [last] == bp;
      FlattenLast(bp[..k], last, 0);
      if i <= |last| {
        FlattenLast(bp[..k], last, |last| - i);
        r := bp[..k] + [last[..|last| - i]];
      } else {
        r := AdjTail(bp, i);
      }
    }
    assert Flatten(bp)[..|Flatten(bp)|] == Flatten(bp);
  }

  /** A frame, padding and all, is taken in as the fragment it carries. */
  method Receive(f: Frame) returns (ok: bool, h: Frag)
    requires f.ip.len >= HLEN && f.body != []
    ensures ok <==> f.ip.len - HLEN <= |Flatten(f.body)|
    ensures ok ==> h == FragOf(f)
  {
    hide Flatten;
    h := Held(0, [], false);
    var body;
    ok, body := TrimLength(f.body, f.ip.len - HLEN);
    if ok {
      h := Held(8 * f.ip.off, Flatten(body), f.ip.mf);
    }
  }

  // ----- a hop

  /** A frame has all the data that its header says. */
  predicate Entire(f: Frame) {
    f.ip.len >= HLEN && f.body != [] && f.ip.len - HLEN <= |Flatten(f.body)|
  }

  /** A frame on its way brings the fragment h of a datagram. */
  ghost predicate Brings(f: Frame, key: Key, df: bool, h: Frag) {
    Entire(f) && FragOf(f) == h && f.ip.key == key && f.ip.df == df
  }

  /** What is sent is frames that bring the fragments. */
  lemma CarriedBrought(frames: seq<Frame>, frags: seq<Frag>, key: Key, df: bool, maxtu: int, mintu: int, i: nat)
    requires Carry(frames, frags, key, df, maxtu, mintu) && i < |frames| && frags[i].data != []
    ensures Brings(frames[i], key, df, frags[i])
  {
    var f := frames[i];
    assert FragOf(f) == frags[i] && WellMade(f, key, df, maxtu, mintu);
    FlattenNone();
  }

  /** A gateway takes a frame in and sends it on: the fragment that the frame brings goes out as the interface
      makes it, whatever padding it came with. */
  method Forward(f: Frame, maxtu: int, mintu: int, room: nat, junk: seq<byte>) returns (r: Sent)
    requires Entire(f) && f.ip.len <= 32767 && mintu <= |junk|
    ensures r.TooBig? <==> Sends(FragOf(f), f.ip.df, maxtu) == []
    ensures r.Frames? ==> Carry(r.frames, Sends(FragOf(f), f.ip.df, maxtu), f.ip.key, f.ip.df, maxtu, mintu)
  {
    hide Flatten, Carry;
    var ok, body := TrimLength(f.body, f.ip.len - HLEN);
    assert Flatten(body) == FragOf(f).data;
    r := Output(f.ip, body, maxtu, mintu, room, junk);
  }
}
