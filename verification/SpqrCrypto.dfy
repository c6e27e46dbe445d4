/** The primitives the SPQR handshake is built on, as parameters of the model: ML-KEM-768 split
    into a header, an encapsulation key and two ciphertexts (spqr/incremental_mlkem768.go), HKDF
    and HMAC. Nothing is assumed of them but Lawful. */
module SpqrCrypto {
  import opened Words
  import opened Results
  import opened Erasure

  const HEADER_SIZE := 64
  const EK_SIZE := 1152
  const DK_SIZE := 2400
  const CT1_SIZE := 960
  const CT2_SIZE := 128
  const MAC_SIZE := 32

  datatype Keys = Keys(hdr: Bytes, ek: Bytes, dk: Bytes)
  datatype EncapsState = EncapsState(seed: Bytes, rho: Bytes, pkHash: Bytes)
  {
    predicate Sized() {
      |seed| == 32 && |rho| == 32 && |pkHash| == 32
    }
  }

  datatype Encaps = Encaps(ct1: Bytes, state: EncapsState, ss: Bytes)

  /** The domain-separation labels, with the numbers mixed into them. */
  datatype Info = SckaKey(epoch: nat) | AuthUpdate(epoch: nat) | ChainStart | ChainAddEpoch | ChainNext(ctr: nat)
  datatype MacLabel = HdrMac(epoch: nat) | CtMac(epoch: nat)

  datatype Crypto = Crypto(
    /** Key generation and encapsulation take their randomness as a number. */
    gen: nat -> Keys,
    ekMatches: (Bytes, Bytes) -> bool,
    encaps1: (Bytes, nat) -> Encaps,
    encaps2: (Bytes, EncapsState) -> Bytes,
    decaps: (Bytes, Bytes, Bytes) -> Bytes,
    /** Input key, salt, label and which 32-byte block of the output; every output length the
        code asks for is one, two or three blocks. */
    hkdf: (Bytes, Bytes, Info, nat) -> Bytes,
    hmac: (Bytes, MacLabel, Bytes) -> Bytes)
  {
    ghost predicate Sizes() {
      && (forall s :: |gen(s).hdr| == HEADER_SIZE && |gen(s).ek| == EK_SIZE && |gen(s).dk| == DK_SIZE)
      && (forall h, k :: |encaps1(h, k).ct1| == CT1_SIZE && encaps1(h, k).state.Sized())
      && (forall e, s :: |encaps2(e, s)| == CT2_SIZE)
      && (forall i, s, l, n :: |hkdf(i, s, l, n)| == 32)
      && (forall k, l, d :: |hmac(k, l, d)| == MAC_SIZE)
    }

    /** An encapsulation key matches the header made with it, and decapsulation recovers the
        encapsulated secret. */
    ghost predicate Lawful() {
      && Sizes()
      && (forall s :: ekMatches(gen(s).ek, gen(s).hdr))
      && (forall s, k :: Recovers(s, k))
    }

    ghost predicate Recovers(s: nat, k: nat) {
      var keys := gen(s);
      var e := encaps1(keys.hdr, k);
      decaps(keys.dk, e.ct1, encaps2(keys.ek, e.state)) == e.ss
    }
  }

  function ZeroBytes(n: nat): Bytes {
    seq(n, _ => 0)
  }

  // ---------------------------------------------------------------- the authenticator

  datatype Auth = Auth(rootKey: Bytes, macKey: Bytes)

  function UpdateAuth(c: Crypto, a: Auth, epoch: nat, key: Bytes): Auth {
    var ikm := a.rootKey + key;
    Auth(c.hkdf(ikm, ZeroBytes(32), AuthUpdate(epoch), 0), c.hkdf(ikm, ZeroBytes(32), AuthUpdate(epoch), 1))
  }

  function NewAuth(c: Crypto, authKey: Bytes): Auth {
    UpdateAuth(c, Auth(ZeroBytes(32), ZeroBytes(32)), 1, authKey)
  }

  function MacHdr(c: Crypto, a: Auth, epoch: nat, hdr: Bytes): Bytes {
    c.hmac(a.macKey, HdrMac(epoch), hdr)
  }

  function MacCt(c: Crypto, a: Auth, epoch: nat, ct: Bytes): Bytes {
    c.hmac(a.macKey, CtMac(epoch), ct)
  }

  function DeriveSckaKey(c: Crypto, epoch: nat, ss: Bytes): Bytes {
    c.hkdf(ss, ZeroBytes(32), SckaKey(epoch), 0)
  }
}
