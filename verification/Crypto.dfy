/** Addresses, shared by every component. */
module Net {
  import opened Words

  datatype Option<+T> = None | Some(value: T)

  /** A VPN address; `NoAddr` is the zero value, which is no address at all. */
  datatype Addr = NoAddr | V4(bits: u32)

  /** The IP part of a UDP endpoint, which may be missing. */
  datatype HostIp = NilIp | HostIp(bits: u32)

  /** A physical UDP endpoint. */
  datatype UdpAddr = UdpAddr(ip: HostIp, port: u32)
}

/** Symbolic cryptography: certificates, the pre-shared key, the two messages of a Noise
    IKpsk0 exchange, and sealing. Equal terms stand for equal byte strings. */
module Crypto {
  import opened Words
  import opened Net

  const DIGEST_LEN := 32

  type Digest = d: seq<bv8> | |d| == DIGEST_LEN witness seq(DIGEST_LEN, _ => 0)
  type PublicKey = nat
  type Ephemeral = nat

  datatype Cert = Cert(fingerprint: Digest, vpnIP: Addr, groups: seq<string>, publicKey: PublicKey)

  // ---------- The pre-shared key ----------

  function XorBytes(a: Digest, b: Digest): Digest {
    seq(DIGEST_LEN, i requires 0 <= i < DIGEST_LEN => a[i] ^ b[i])
  }

  method DerivePreSharedKey(local: Cert, remote: Cert) returns (psk: array<bv8>)
    ensures fresh(psk) && psk.Length == DIGEST_LEN
    ensures psk[..] == XorBytes(local.fingerprint, remote.fingerprint)
    ensures forall k :: 0 <= k < 32 ==> psk[k] == local.fingerprint[k] ^ remote.fingerprint[k]
  {
    psk := new bv8[DIGEST_LEN](_ => 0);
    var lf, rf := local.fingerprint, remote.fingerprint;
    for i := 0 to DIGEST_LEN
      invariant forall k :: 0 <= k < i ==> psk[k] == lf[k] ^ rf[k]
    {
      psk[i] := lf[i] ^ rf[i];
    }
  }

  /** Both ends derive the same key from their two views of the pair. */
  lemma PskIsSymmetric(a: Digest, b: Digest)
    ensures XorBytes(a, b) == XorBytes(b, a)
  {
    assert forall i :: 0 <= i < DIGEST_LEN ==> XorBytes(a, b)[i] == XorBytes(b, a)[i];
  }

  lemma XorCancels(x: bv8, y: bv8, z: bv8)
    ensures x ^ y == x ^ z <==> y == z
  {
  }

  /** With one fingerprint fixed, the key determines the other: two ends that hold the same
      key hold each other's certificates. */
  lemma PskDeterminesPeer(a: Digest, b: Digest, c: Digest)
    ensures XorBytes(a, b) == XorBytes(a, c) <==> b == c
  {
    if XorBytes(a, b) == XorBytes(a, c) {
      forall i | 0 <= i < DIGEST_LEN
        ensures b[i] == c[i]
      {
        assert XorBytes(a, b)[i] == XorBytes(a, c)[i];
        XorCancels(a[i], b[i], c[i]);
      }
    }
  }

  // ---------- The Noise exchange ----------

  /** The initiator's state once it has written its message. */
  datatype Initiator = Initiator(e: Ephemeral, s: PublicKey, rs: PublicKey, psk: Digest)

  /** Everything both ends mix into the session keys. */
  datatype Transcript = Transcript(first: Initiator, er: Ephemeral)

  datatype NoiseMessage = First(init: Initiator) | Second(transcript: Transcript)

  /** The two cipher keys of a finished exchange, named by the direction they protect. */
  datatype Key = ToResponder(transcript: Transcript) | ToInitiator(transcript: Transcript)

  datatype CipherPair = CipherPair(send: Key, recv: Key)

  /** The responder can read a first message only if it was made for its own static key
      and under the same pre-shared key. */
  predicate ResponderReads(own: PublicKey, psk: Digest, m: NoiseMessage) {
    m.First? && m.init.rs == own && m.init.psk == psk
  }

  /** The initiator can read a second message only if it continues its own first one. */
  predicate InitiatorReads(state: Initiator, m: NoiseMessage) {
    m.Second? && m.transcript.first == state
  }

  function CiphersFromStates(cs1: Key, cs2: Key, isInitiator: bool): CipherPair {
    if isInitiator then CipherPair(cs1, cs2) else CipherPair(cs2, cs1)
  }

  /** The pair a finished exchange gives to one of its ends. */
  function SessionCiphers(t: Transcript, isInitiator: bool): CipherPair {
    CiphersFromStates(ToResponder(t), ToInitiator(t), isInitiator)
  }

  /** The two ends hold crossed pairs, and pairs of different exchanges or roles share no key
      in the same direction. */
  lemma CiphersCross(t: Transcript, u: Transcript, a: bool, b: bool)
    ensures var x, y := SessionCiphers(t, a), SessionCiphers(u, b);
            (x.send == y.recv <==> t == u && a != b) &&
            (x.recv == y.send <==> t == u && a != b) &&
            (x.send == y.send <==> t == u && a == b) &&
            (x.recv == y.recv <==> t == u && a == b)
  {
  }

  // ---------- Sealing ----------

  type Payload = seq<u8>

  /** A sealed box, or bytes that no key opens. */
  datatype Ciphertext = Sealed(key: Key, nonce: seq<u8>, ad: seq<u8>, plaintext: Payload) | Noise(bytes: seq<u8>)

  /** The 12-byte nonce of a packet counter: eight little-endian bytes and four zeros. */
  function CounterNonce(counter: u64): (nonce: seq<u8>)
    ensures |nonce| == 12
  {
    LittleEndian(8, counter) + [0, 0, 0, 0]
  }

  /** The nonce is the counter's eight bytes, least significant first, and four zeros. */
  lemma NonceBytes(c: u64, k: nat)
    requires k < 12
    ensures CounterNonce(c)[k] == if k < 8 then Digit(c, k) else 0
  {
    if k < 8 {
      LittleEndianAt(8, c, k);
    }
  }

  lemma NonceDeterminesCounter(c: u64, d: u64)
    ensures CounterNonce(c) == CounterNonce(d) <==> c == d
  {
    WordSizes();
    if CounterNonce(c) == CounterNonce(d) {
      assert CounterNonce(c)[..8] == LittleEndian(8, c) && CounterNonce(d)[..8] == LittleEndian(8, d);
      LittleEndianInjective(8, c, d);
    }
  }

  function Encrypt(key: Key, counter: u64, header: seq<u8>, plaintext: Payload): Ciphertext {
    Sealed(key, CounterNonce(counter), header, plaintext)
  }

  function Decrypt(key: Key, counter: u64, header: seq<u8>, box: Ciphertext): Option<Payload> {
    if box.Sealed? && box.key == key && box.nonce == CounterNonce(counter) && box.ad == header
    then Some(box.plaintext) else None
  }

  /** A box opens exactly under the key, counter and header it was sealed with. */
  lemma OpensExactly(k: Key, c: u64, h: seq<u8>, p: Payload, k': Key, c': u64, h': seq<u8>)
    ensures Decrypt(k', c', h', Encrypt(k, c, h, p)) == if k' == k && c' == c && h' == h then Some(p) else None
  {
    NonceDeterminesCounter(c, c');
  }
}
