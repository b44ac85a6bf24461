/**
  A key context as the mode functions of aes_modes.c see it: the block function it holds (of
  aes_encrypt or aes_decrypt), whether inf.b[0] is a round count which that function accepts, and
  the position of the next byte in the current block, kept in inf.b[2].
*/
module ModeContexts {
  import opened Blocks

  class ModeContext<Y(!new)> {
    const cipher: seq<Y> -> seq<Y>
    const keyed: bool
    var position: nat

    ghost predicate Valid() {
      OnBlocks(cipher)
    }

    // After a key setup position is 1, or 0 for decryption (Aes.AesEncryptKey, Aes.AesDecryptKey).
    constructor (cipher: seq<Y> -> seq<Y>, keyed: bool, position: nat)
      requires OnBlocks(cipher)
      ensures Valid() && this.cipher == cipher && this.keyed == keyed && this.position == position
    {
      this.cipher, this.keyed, this.position := cipher, keyed, position;
    }

    // aes_encrypt or aes_decrypt
    method Crypt(input: array<Y>, from: nat, output: array<Y>, to: nat) returns (ok: bool)
      requires Valid() && from + 16 <= input.Length && to + 16 <= output.Length
      modifies output
      ensures ok == keyed
      ensures output[..] == if ok then Stored(old(output[..]), to, cipher(old(input[from..from + 16]))) else old(output[..])
    {
      if !keyed {
        return false;
      }
      StoreBlock(output, to, cipher(input[from..from + 16]));
      return true;
    }

    // The same on a buffer of one block
    method CryptInPlace(v: array<Y>) returns (ok: bool)
      requires Valid() && v.Length == 16
      modifies v
      ensures ok == keyed
      ensures v[..] == if ok then cipher(old(v[..])) else old(v[..])
    {
      WholeBuffer(v[..], cipher(v[..]));
      hide Stored;
      ok := Crypt(v, 0, v, 0);
    }

    // aes_mode_reset
    method Reset()
      modifies this
      ensures position == 0
    {
      position := 0;
    }
  }

  lemma WholeBuffer<Y>(v: seq<Y>, b: seq<Y>)
    requires |v| == |b| == 16
    ensures v[0..0 + 16] == v && Stored(v, 0, b) == b
  {
  }
}
