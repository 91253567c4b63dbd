/** The AES-256 context: key setup, and the two block operations on a caller's buffer. */
module Aes256 {
  import opened Fips197
  import opened Aes
  import opened AesKeys

  class Context {
    const key: array<bv8>
    const enckey: array<bv8>
    const deckey: array<bv8>

    /** The context is set up for key k. The rolling key may hold anything. */
    ghost predicate Valid(k: Key)
      reads this, key, enckey, deckey
    {
      && key.Length == enckey.Length == deckey.Length == 32
      && key != enckey && key != deckey && enckey != deckey
      && enckey[..] == k
      && deckey[..] == Window(k, 7)
    }

    constructor (k: Key)
      ensures Valid(k)
      ensures fresh(key) && fresh(enckey) && fresh(deckey)
    {
      hide Rcon, F, Next, Window, StepsTo, StepsBackTo;
      key := new bv8[32];
      enckey := new bv8[32];
      deckey := new bv8[32];
      new;
      var i := 0;
      while i < 32
        invariant 0 <= i <= 32
        invariant enckey[..i] == k[..i] && deckey[..i] == k[..i]
      {
        deckey[i] := k[i];
        enckey[i] := k[i];
        i := i + 1;
      }
      assert deckey[..] == k;
      FirstWindow(k);
      FirstRcon();
      var rcon := 1;
      i := 7;
      while i != 0
        invariant 0 <= i <= 7
        invariant enckey[..] == k
        invariant deckey[..] == Window(k, 7 - i)
        invariant rcon == Rcon(8 - i)
      {
        rcon := ExpandEncKey(deckey, rcon);
        NextWindow(k, 7 - i);
        RconSteps(8 - i);
        i := i - 1;
      }
    }

    /** Replaces the block in buf by its cipher text. */
    method EncryptEcb(buf: array<bv8>, ghost k: Key)
      requires Valid(k)
      requires buf.Length == 16 && buf != key && buf != enckey && buf != deckey
      modifies buf, key
      ensures Valid(k)
      ensures buf[..] == Cipher(k, old(buf[..]))
    {
      hide RoundKey, AddRoundKey, SubBytes, ShiftRows, MixColumns, F, Rcon, AfterRounds, Next, Window, StepsTo, StepsBackTo;
      ghost var s := buf[..];
      FirstWindow(k);
      WindowHalves(k, 0);
      AddRoundKeyCopy(buf, enckey, key);
      AfterRoundsStart(k, s);
      var i, rcon := 1, 1;
      FirstRcon();
      while i < 14
        invariant 1 <= i <= 14
        invariant Valid(k)
        invariant buf[..] == AfterRounds(k, s, i - 1)
        invariant key[..] == Window(k, (i - 1) / 2)
        invariant rcon == Rcon((i - 1) / 2 + 1)
      {
        ghost var j := (i - 1) / 2;
        AfterRoundsStep(k, s, i);
        SubBytesInPlace(buf);
        ShiftRowsInPlace(buf);
        MixColumnsInPlace(buf);
        WindowHalves(k, j);
        if i % 2 == 1 {
          AddRoundKeyInPlace(buf, key, 16);
        } else {
          rcon := ExpandEncKey(key, rcon);
          NextWindow(k, j);
          RconSteps(j + 1);
          WindowHalves(k, j + 1);
          AddRoundKeyInPlace(buf, key, 0);
        }
        i := i + 1;
      }
      SubBytesInPlace(buf);
      ShiftRowsInPlace(buf);
      rcon := ExpandEncKey(key, rcon);
      NextWindow(k, 6);
      WindowHalves(k, 7);
      AddRoundKeyInPlace(buf, key, 0);
    }

    /** Replaces the block in buf by its plain text. */
    method DecryptEcb(buf: array<bv8>, ghost k: Key)
      requires Valid(k)
      requires buf.Length == 16 && buf != key && buf != enckey && buf != deckey
      modifies buf, key
      ensures Valid(k)
      ensures buf[..] == InvCipher(k, old(buf[..]))
    {
      hide RoundKey, AddRoundKey, InvSubBytes, InvShiftRows, InvMixColumns, FD, Rcon, UndoRounds, Previous, Next, Window, StepsTo, StepsBackTo;
      WindowHalves(k, 7);
      AddRoundKeyCopy(buf, deckey, key);
      InvShiftRowsInPlace(buf);
      InvSubBytesInPlace(buf);
      var i, rcon := 13, 0x80;
      LastRcon();
      ghost var goal := UndoRounds(k, buf[..], 13);
      while i != 0
        invariant 0 <= i <= 13
        invariant Valid(k)
        invariant UndoRounds(k, buf[..], i) == goal
        invariant key[..] == Window(k, (i + 1) / 2)
        invariant rcon == Rcon((i + 1) / 2 + 1)
      {
        ghost var s := buf[..];
        ghost var j := (i + 1) / 2;
        WindowHalves(k, j);
        if i % 2 == 1 {
          RconSteps(j);
          NextWindow(k, j - 1);
          PreviousOfNext(Window(k, j - 1), Rcon(j));
          rcon := ExpandDecKey(key, rcon);
          WindowHalves(k, j - 1);
          AddRoundKeyInPlace(buf, key, 16);
        } else {
          AddRoundKeyInPlace(buf, key, 0);
        }
        InvMixColumnsInPlace(buf);
        InvShiftRowsInPlace(buf);
        InvSubBytesInPlace(buf);
        UndoRoundsStep(k, s, i);
        i := i - 1;
      }
      WindowHalves(k, 0);
      UndoRoundsEnd(k, buf[..]);
      AddRoundKeyInPlace(buf, key, 0);
    }

    /** Wipes all three keys. */
    method Done(ghost k: Key)
      requires Valid(k)
      modifies key, enckey, deckey
      ensures forall i :: 0 <= i < 32 ==> key[i] == 0 && enckey[i] == 0 && deckey[i] == 0
    {
      var i := 0;
      while i < 32
        invariant 0 <= i <= 32
        invariant forall j :: 0 <= j < i ==> key[j] == 0 && enckey[j] == 0 && deckey[j] == 0
      {
        key[i], enckey[i], deckey[i] := 0, 0, 0;
        i := i + 1;
      }
    }
  }

  lemma WindowHalves(k: Key, j: nat)
    ensures Window(k, j)[..16] == RoundKey(k, 2 * j)
    ensures Window(k, j)[0..16] == RoundKey(k, 2 * j)
    ensures Window(k, j)[16..32] == RoundKey(k, 2 * j + 1)
  {
  }

  lemma FirstRcon()
    ensures Rcon(1) == 1
  {
  }

  lemma AfterRoundsStart(k: Key, s: Block)
    ensures AfterRounds(k, s, 0) == AddRoundKey(s, RoundKey(k, 0))
  {
  }

  lemma AfterRoundsStep(k: Key, s: Block, r: nat)
    requires r > 0
    ensures AfterRounds(k, s, r)
         == AddRoundKey(MixColumns(ShiftRows(SubBytes(AfterRounds(k, s, r - 1)))), RoundKey(k, r))
  {
  }

  lemma UndoRoundsStep(k: Key, s: Block, r: nat)
    requires r > 0
    ensures UndoRounds(k, s, r)
         == UndoRounds(k, InvSubBytes(InvShiftRows(InvMixColumns(AddRoundKey(s, RoundKey(k, r))))), r - 1)
  {
  }

  lemma UndoRoundsEnd(k: Key, s: Block)
    ensures UndoRounds(k, s, 0) == AddRoundKey(s, RoundKey(k, 0))
  {
  }
}
