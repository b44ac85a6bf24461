/**
  MakeEncryptedServerInfo of Source/Loader/Utils/PatchingUtils.cs: the block of the login server's
  public key and host name, and what the game reads out of it.
*/
module ServerInfo {
  import opened Wrappers
  import opened Blocks
  import opened Tea
  import opened Encodings

  const PATCH_SIZE: nat := 520
  const MAX_KEY_SIZE: nat := 430
  const MAX_HOST_SIZE: nat := 85
  const HOST_OFFSET: nat := 432

  // The block before encryption, from encoded strings
  function DataBlock(key: seq<Byte>, host: seq<Byte>): (b: seq<Byte>)
    requires |key| <= MAX_KEY_SIZE && |host| <= MAX_HOST_SIZE
    ensures |b| == PATCH_SIZE
  {
    Stored(Stored(Zeros(PATCH_SIZE), 0, key), HOST_OFFSET, host)
  }

  method MakeEncryptedServerInfo(serverHostname: seq<Unit>, publicKey: seq<Unit>, k: Key) returns (r: Option<array<Byte>>)
    ensures r.None? <==> |Utf8(publicKey)| > 430 || 2 * |serverHostname| > 85
    ensures r.Some? ==> fresh(r.value) && r.value[..] == EncryptedAll(k, DataBlock(Utf8(publicKey), Utf16(serverHostname)))
  {
    var block := new Byte[PATCH_SIZE](_ => 0);
    assert block[..] == Zeros(PATCH_SIZE);
    hide EncryptedAll, Utf8, Utf16;
    var keyBytes, hostBytes := Utf8(publicKey), Utf16(serverHostname);
    if |keyBytes| > MAX_KEY_SIZE {
      return None;
    }
    if |hostBytes| > MAX_HOST_SIZE {
      return None;
    }
    StoreBlock(block, 0, keyBytes);
    StoreBlock(block, HOST_OFFSET, hostBytes);
    var output := Tea32Encrypt(block, k);
    return Some(output);
  }

  // The string that begins at a place: up to the first NUL

  function CString(b: seq<Byte>, at: nat): seq<Byte>
    decreases |b| - at
  {
    if at >= |b| || b[at] == 0 then [] else [b[at]] + CString(b, at + 1)
  }

  function WString(b: seq<Byte>, at: nat): seq<Unit>
    decreases |b| - at
  {
    if at + 2 > |b| then []
    else
      var u := TwoBytes(b[at], b[at + 1]);
      if u == 0 then [] else [u] + WString(b, at + 2)
  }

  lemma {:induction false} CStringReads(b: seq<Byte>, at: nat, s: seq<Byte>)
    requires at + |s| < |b| && b[at..at + |s|] == s && b[at + |s|] == 0 && 0 !in s
    ensures CString(b, at) == s
    decreases |s|
  {
    if s != [] {
      assert b[at] == s[0] && b[at + 1..at + |s|] == s[1..];
      CStringReads(b, at + 1, s[1..]);
    }
  }

  lemma {:induction false} CStringHasNoNul(b: seq<Byte>, at: nat)
    ensures 0 !in CString(b, at)
    decreases |b| - at
  {
    if at < |b| && b[at] != 0 {
      CStringHasNoNul(b, at + 1);
    }
  }

  lemma {:induction false} WStringReads(b: seq<Byte>, at: nat, s: seq<Unit>)
    requires at + 2 * |s| + 2 <= |b| && b[at + 2 * |s|] == b[at + 2 * |s| + 1] == 0 && 0 !in s
    requires forall i :: 0 <= i < |s| ==> TwoBytes(b[at + 2 * i], b[at + 2 * i + 1]) == s[i]
    ensures WString(b, at) == s
    decreases |s|
  {
    if s != [] {
      assert TwoBytes(b[at + 2 * 0], b[at + 2 * 0 + 1]) == s[0];
      forall i | 0 <= i < |s| - 1
        ensures TwoBytes(b[at + 2 + 2 * i], b[at + 2 + 2 * i + 1]) == s[1..][i]
      {
        assert TwoBytes(b[at + 2 * (i + 1)], b[at + 2 * (i + 1) + 1]) == s[i + 1];
      }
      WStringReads(b, at + 2, s[1..]);
    }
  }

  lemma {:induction false} WStringHasNoNul(b: seq<Byte>, at: nat)
    ensures 0 !in WString(b, at)
    decreases |b| - at
  {
    if at + 2 <= |b| && TwoBytes(b[at], b[at + 1]) != 0 {
      WStringHasNoNul(b, at + 2);
    }
  }

  lemma TwoStored<T>(z: seq<T>, a: seq<T>, b: seq<T>, at: nat)
    requires |a| <= at && at + |b| <= |z|
    ensures var r := Stored(Stored(z, 0, a), at, b);
            && r[..|a|] == a && (forall i :: |a| <= i < at ==> r[i] == z[i])
            && r[at..at + |b|] == b && forall i :: at + |b| <= i < |z| ==> r[i] == z[i]
  {
  }

  // The layout: the key and the host name stand apart, each with a terminator behind it.
  lemma Layout(key: seq<Byte>, host: seq<Byte>)
    requires |key| <= MAX_KEY_SIZE && |host| <= MAX_HOST_SIZE
    ensures var b := DataBlock(key, host);
            && |b| == 520 && b[..|key|] == key && (forall i :: |key| <= i < 432 ==> b[i] == 0)
            && 432 + |host| + 2 <= 520
            && b[432..432 + |host|] == host
            && forall i :: 432 + |host| <= i < 520 ==> b[i] == 0
  {
    hide Stored;
    TwoStored(Zeros(PATCH_SIZE), key, host, HOST_OFFSET);
  }

  lemma KeyRead(key: seq<Byte>, host: seq<Byte>)
    requires |key| <= MAX_KEY_SIZE && |host| <= MAX_HOST_SIZE
    ensures CString(DataBlock(key, host), 0) == key <==> 0 !in key
  {
    var b := DataBlock(key, host);
    Layout(key, host);
    CStringHasNoNul(b, 0);
    hide DataBlock;
    if 0 !in key {
      CStringReads(b, 0, key);
    }
  }

  // The terminator
  lemma HostEnds(b: seq<Byte>, n: nat)
    requires |b| == PATCH_SIZE && HOST_OFFSET + n + 2 <= PATCH_SIZE && forall i :: HOST_OFFSET + n <= i < PATCH_SIZE ==> b[i] == 0
    ensures b[HOST_OFFSET + n] == b[HOST_OFFSET + n + 1] == 0
  {
  }

  lemma HostRead(key: seq<Byte>, host: seq<Unit>)
    requires |key| <= MAX_KEY_SIZE && 2 * |host| <= MAX_HOST_SIZE
    ensures WString(DataBlock(key, Utf16(host)), HOST_OFFSET) == Repaired(host) <==> 0 !in Repaired(host)
  {
    var r := Repaired(host);
    var b := DataBlock(key, Utf16(host));
    Layout(key, Utf16(host));
    WStringHasNoNul(b, HOST_OFFSET);
    hide DataBlock, Utf16, Repaired, WString;
    if 0 !in r {
      HostUnits(b, host);
      HostEnds(b, 2 * |host|);
      WStringReads(b, HOST_OFFSET, r);
    }
  }

  // Decryption gives the block back, and the strings read from it are the encoded ones exactly when
  // there is no NUL in them.
  lemma Faithful(key: seq<Unit>, host: seq<Unit>, k: Key)
    requires |Utf8(key)| <= MAX_KEY_SIZE && 2 * |host| <= MAX_HOST_SIZE
    ensures var b := DecryptedAll(k, EncryptedAll(k, DataBlock(Utf8(key), Utf16(host))));
            && b == DataBlock(Utf8(key), Utf16(host))
            && (CString(b, 0) == Utf8(key) <==> 0 !in key)
            && (WString(b, HOST_OFFSET) == Repaired(host) <==> 0 !in host)
  {
    WholeBlocksRecovered(k, DataBlock(Utf8(key), Utf16(host)));
    KeyRead(Utf8(key), Utf16(host));
    HostRead(Utf8(key), host);
    NulInUtf8(key);
    NulInRepaired(host);
    hide *;
  }

  // So NUL-free strings are recovered exactly when they have no unpaired surrogate, as every public key
  // and host name has.
  lemma Recovers(key: seq<Unit>, host: seq<Unit>, k: Key)
    requires |Utf8(key)| <= MAX_KEY_SIZE && 2 * |host| <= MAX_HOST_SIZE && 0 !in key && 0 !in host
    ensures var b := DecryptedAll(k, EncryptedAll(k, DataBlock(Utf8(key), Utf16(host))));
            && (Decoded(CString(b, 0)) == key <==> Repaired(key) == key)
            && (WString(b, HOST_OFFSET) == host <==> Repaired(host) == host)
  {
    Faithful(key, host, k);
    DecodedUtf8(key);
  }

  lemma HostUnits(b: seq<Byte>, host: seq<Unit>)
    requires |b| == PATCH_SIZE && HOST_OFFSET + 2 * |host| + 2 <= PATCH_SIZE && b[HOST_OFFSET..HOST_OFFSET + 2 * |host|] == Utf16(host)
    ensures forall i :: 0 <= i < |host| ==> TwoBytes(b[HOST_OFFSET + 2 * i], b[HOST_OFFSET + 2 * i + 1]) == Repaired(host)[i]
  {
    hide UnitBytes, Repaired;
    var u, r := b[HOST_OFFSET..HOST_OFFSET + 2 * |host|], Repaired(host);
    forall i | 0 <= i < |host|
      ensures TwoBytes(b[HOST_OFFSET + 2 * i], b[HOST_OFFSET + 2 * i + 1]) == r[i]
    {
      UnitBytesAt(r, i);
      TwoBytesOf(r[i]);
      assert u[2 * i] == b[HOST_OFFSET + 2 * i] && u[2 * i + 1] == b[HOST_OFFSET + 2 * i + 1];
    }
  }
}
