/** The bTLS session object; each method is one of the functions of module Btls. */
module BtlsSession {
  import opened Machine
  import opened Octets
  import opened Wrappers
  import opened Btls

  class Session {
    const p: Prims
    const role: Role
    const seed: Key32
    const random: Key32
    const ephPriv: Key32
    const ephPub: Key32
    const dialled: string
    var state: Stage
    var epoch: nat
    var want: byte
    var peerEph: Key32
    var certPub: Key32
    var transcript: Bytes
    var prk: Bytes
    var sendKey: Key32
    var recvKey: Key32
    var sendSeq: nat
    var recvSeq: nat
    var rx: Bytes

    function View(): Sess
      reads this
    {
      Sess(role, seed, random, ephPriv, ephPub, dialled, state, epoch, want, peerEph, certPub, transcript, prk,
           sendKey, recvKey, sendSeq, recvSeq, rx)
    }

    constructor (p: Prims, role: Role, seed: Key32, dialled: string, random: Key32, ephPriv: Key32)
      ensures this.p == p && View() == Btls.Fresh(p, role, seed, dialled, random, ephPriv)
    {
      this.p, this.role, this.seed, this.dialled := p, role, seed, dialled;
      this.random, this.ephPriv, this.ephPub := random, ephPriv, p.dhBase(ephPriv);
      state, epoch, want := Init, 0, 0;
      peerEph, certPub, transcript, prk := Zeros(32), Zeros(32), [], [];
      sendKey, recvKey, sendSeq, recvSeq, rx := Zeros(32), Zeros(32), 0, 0, [];
    }

    /** _ecdhe, then _install_epoch with the handshake labels. */
    method EnterHandshake()
      modifies this`prk, this`sendKey, this`recvKey, this`sendSeq, this`recvSeq, this`epoch
      ensures View() == HandshakeKeys(p, old(View()))
    {
      prk := SharedPrk(p, ephPriv, peerEph);
      Install("btls-hs-c2s", "btls-hs-s2c");
      epoch := 1;
    }

    method EnterApplication()
      modifies this`sendKey, this`recvKey, this`sendSeq, this`recvSeq, this`epoch, this`state
      ensures View() == AppKeys(p, old(View()))
    {
      Install("btls-app-c2s", "btls-app-s2c");
      epoch := 2;
      state := Done;
    }

    method Install(c2s: string, s2c: string)
      modifies this`sendKey, this`recvKey, this`sendSeq, this`recvSeq
      ensures View() == InstallEpoch(p, old(View()), c2s, s2c)
    {
      var kc, ks := Kdf(p, prk, c2s, transcript), Kdf(p, prk, s2c, transcript);
      if role == Client {
        sendKey, recvKey := kc, ks;
      } else {
        sendKey, recvKey := ks, kc;
      }
      sendSeq, recvSeq := 0, 0;
    }

    method SealRecord(inner: Bytes) returns (rec: Bytes)
      modifies this`sendSeq
      ensures (View(), rec) == Seal(p, old(View()), inner)
    {
      var box := p.seal(sendKey, RecNonce(sendSeq), inner);
      sendSeq := sendSeq + 1;
      return Tagged(RT_APPLICATION, box);
    }

    method OpenRecord(rec: Bytes) returns (inner: Option<Bytes>)
      modifies this`recvSeq
      ensures var r := Open(p, old(View()), rec);
              if r.None? then inner.None? && View() == old(View()) else inner == Some(r.value.1) && View() == r.value.0
    {
      if |rec| < 3 || rec[0] != RT_APPLICATION {
        return None;
      }
      var blen := BigEndian(rec[1..3]);
      if blen < 33 || blen > 34 + MAX_PAYLOAD || |rec| != 3 + blen {
        return None;
      }
      inner := p.open(recvKey, RecNonce(recvSeq), rec[3..]);
      if inner.Some? {
        recvSeq := recvSeq + 1;
      }
    }

    method Start() returns (rec: Option<Bytes>)
      modifies this
      ensures (View(), rec) == ClientStart(p, old(View()))
    {
      if role != Client || state != Init {
        return None;
      }
      var frame := Tagged(HS_CLIENT_HELLO, random + ephPub);
      transcript := transcript + frame;
      state := HelloSent;
      want := HS_SERVER_HELLO;
      return Some(Tagged(RT_HANDSHAKE, frame));
    }

    method FeedRecord(rec: Bytes) returns (code: int)
      modifies this
      ensures (View(), code) == Feed(p, old(View()), rec)
    {
      if |rec| < 3 {
        return -1;
      }
      var blen := BigEndian(rec[1..3]);
      if blen > MAX_REC - 3 || |rec| != 3 + blen {
        return -1;
      }
      if epoch == 0 {
        code := FeedHello(rec);
        return;
      }
      var inner := OpenRecord(rec);
      if inner.None? || inner.value == [] || inner.value[0] != RT_HANDSHAKE {
        return -1;
      }
      code := FeedHs(inner.value[1..]);
    }

    method FeedHello(rec: Bytes) returns (code: int)
      requires |rec| >= 3
      modifies this
      ensures (View(), code) == FeedPlain(p, old(View()), rec)
    {
      var body := rec[3..];
      if rec[0] != RT_HANDSHAKE || |body| < 3 || BigEndian(body[1..3]) != |body| - 3 {
        return -1;
      }
      if role == Server && state == Init {
        if body[0] != HS_CLIENT_HELLO || |body| != 67 {
          return -1;
        }
        var peer := body[35..67];
        assert |peer| == 32;
        peerEph := peer;
        transcript := transcript + body;
        state := Handshake;
        want := HS_SERVER_HELLO;
        return 0;
      }
      if role == Client && state == HelloSent && want == HS_SERVER_HELLO {
        if body[0] != HS_SERVER_HELLO || |body| != 67 {
          return -1;
        }
        var peer := body[35..67];
        assert |peer| == 32;
        peerEph := peer;
        transcript := transcript + body;
        EnterHandshake();
        state := Handshake;
        want := HS_CERTIFICATE;
        return 0;
      }
      return -1;
    }

    method FeedHs(frame: Bytes) returns (code: int)
      modifies this
      ensures (View(), code) == FeedFrame(p, old(View()), frame)
    {
      if |frame| < 3 || 3 + BigEndian(frame[1..3]) != |frame| {
        return -1;
      }
      if role == Server {
        code := FeedServerSide(frame);
      } else {
        code := FeedClientSide(frame);
      }
    }

    method FeedServerSide(frame: Bytes) returns (code: int)
      requires |frame| >= 3
      modifies this
      ensures (View(), code) == FeedServer(p, old(View()), frame)
    {
      if state != WaitFinished || frame[0] != HS_FINISHED || |frame| != 35 {
        return -1;
      }
      if Kdf(p, prk, "btls-fin-c", transcript) != frame[3..] {
        return -1;
      }
      transcript := transcript + frame;
      EnterApplication();
      return 1;
    }

    method FeedClientSide(frame: Bytes) returns (code: int)
      requires |frame| >= 3 && 3 + BigEndian(frame[1..3]) == |frame| && role == Client
      modifies this
      ensures (View(), code) == FeedFrame(p, old(View()), frame)
    {
      if want == HS_CERTIFICATE {
        if frame[0] != HS_CERTIFICATE || |frame| != 35 {
          return -1;
        }
        certPub := frame[3..];
        if dialled != "" && LabelFromPub(p, certPub) != dialled {
          return -1;
        }
        transcript := transcript + frame;
        want := HS_CERTIFICATE_VERIFY;
        return 0;
      }
      if want == HS_CERTIFICATE_VERIFY {
        if frame[0] != HS_CERTIFICATE_VERIFY || |frame| != 67 {
          return -1;
        }
        if !p.verify(certPub, frame[3..], CertDigest(p, transcript)) {
          return -1;
        }
        transcript := transcript + frame;
        want := HS_FINISHED;
        return 0;
      }
      if want == HS_FINISHED {
        if frame[0] != HS_FINISHED || |frame| != 35 {
          return -1;
        }
        if Kdf(p, prk, "btls-fin-s", transcript) != frame[3..] {
          return -1;
        }
        transcript := transcript + frame;
        want := 0;
        return 0;
      }
      return -1;
    }

    method PumpRecord() returns (rec: Option<Bytes>)
      modifies this
      ensures (View(), rec) == Pump(p, old(View()))
    {
      if role == Server && state == Handshake {
        rec := PumpFlight();
        return;
      }
      if role == Client && state == Handshake && want == 0 {
        rec := EmitSealed(Tagged(HS_FINISHED, Kdf(p, prk, "btls-fin-c", transcript)));
        EnterApplication();
        return;
      }
      return None;
    }

    method PumpFlight() returns (rec: Option<Bytes>)
      requires role == Server && state == Handshake
      modifies this
      ensures (View(), rec) == Pump(p, old(View()))
    {
      if want == HS_SERVER_HELLO {
        var frame := Tagged(HS_SERVER_HELLO, random + ephPub);
        transcript := transcript + frame;
        EnterHandshake();
        want := HS_CERTIFICATE;
        return Some(Tagged(RT_HANDSHAKE, frame));
      }
      if want == HS_CERTIFICATE {
        want := HS_CERTIFICATE_VERIFY;
        rec := EmitSealed(Tagged(HS_CERTIFICATE, p.pub(seed)));
        return;
      }
      if want == HS_CERTIFICATE_VERIFY {
        var sig := p.sign(seed, CertDigest(p, transcript));
        want := HS_FINISHED;
        rec := EmitSealed(Tagged(HS_CERTIFICATE_VERIFY, sig));
        return;
      }
      if want == HS_FINISHED {
        var mac := Kdf(p, prk, "btls-fin-s", transcript);
        state := WaitFinished;
        rec := EmitSealed(Tagged(HS_FINISHED, mac));
        return;
      }
      return None;
    }

    /** _th, then _seal. */
    method EmitSealed(frame: Bytes) returns (rec: Option<Bytes>)
      modifies this`transcript, this`sendSeq
      ensures (View(), rec) == PumpSealed(p, old(View()), frame)
    {
      transcript := transcript + frame;
      var r := SealRecord([RT_HANDSHAKE] + frame);
      return Some(r);
    }

    /** send_app: range(0, len, MAX_PAYLOAD) */
    method SendMessage(msg: Bytes) returns (out: Option<seq<Bytes>>)
      modifies this`sendSeq
      ensures (View(), out) == SendApp(p, old(View()), msg)
    {
      if state != Done || !(0 < |msg| <= MAX_MSG) {
        return None;
      }
      var recs: seq<Bytes>, off := [], 0;
      while off + MAX_PAYLOAD < |msg|
        invariant 0 <= off <= |msg| && (off < |msg|)
        invariant SendPieces(p, old(View()), msg).0 == SendPieces(p, View(), msg[off..]).0
        invariant SendPieces(p, old(View()), msg).1 == recs + SendPieces(p, View(), msg[off..]).1
      {
        assert msg[off..][..MAX_PAYLOAD] == msg[off..off + MAX_PAYLOAD];
        assert msg[off..][MAX_PAYLOAD..] == msg[off + MAX_PAYLOAD..];
        var rec := SealRecord([RT_APPLICATION, 1] + msg[off..off + MAX_PAYLOAD]);
        recs := recs + [rec];
        off := off + MAX_PAYLOAD;
      }
      var rec := SealRecord([RT_APPLICATION, 0] + msg[off..]);
      return Some(recs + [rec]);
    }

    method RecvMessage(rec: Bytes) returns (got: Received)
      modifies this`recvSeq, this`rx
      ensures (View(), got) == RecvApp(p, old(View()), rec)
    {
      if state != Done {
        return Failed;
      }
      var inner := OpenRecord(rec);
      if inner.None? || |inner.value| < 2 || inner.value[0] != RT_APPLICATION {
        return Failed;
      }
      var data := inner.value[2..];
      if |rx| + |data| > MAX_MSG {
        return Failed;
      }
      rx := rx + data;
      if inner.value[1] % 2 == 1 {
        return Fragment;
      }
      got := Message(rx);
      rx := [];
    }
  }
}
