/** The 16-key hexadecimal keypad state and the "waiting for a key" flag. */
module Input {
  import opened Bits

  /** Keys 0 to F. */
  const KeyCount := 16

  class Input {
    var keys: array<bool>
    var waitingForInput: bool

    ghost predicate Valid()
      reads this
    {
      keys.Length == KeyCount
    }

    ghost function Keys(): seq<bool>
      reads this, keys
    {
      keys[..]
    }

    /** The zero value of the Go struct: no key pressed, not waiting. */
    constructor ()
      ensures Valid() && fresh(keys)
      ensures Keys() == seq(KeyCount, k => false) && !waitingForInput
    {
      keys := new bool[KeyCount](k => false);
      waitingForInput := false;
    }

    /** Whether key keyIndex is down; an index past F is out of the array. */
    method IsPressed(keyIndex: byte) returns (pressed: bool)
      requires Valid() && keyIndex < KeyCount
      ensures pressed <==> Keys()[keyIndex]
    {
      pressed := keys[keyIndex];
    }

    /** Records the state of key keyIndex; every other key and the waiting
        flag keep their values. */
    method Update(keyIndex: byte, pressed: bool)
      requires Valid() && keyIndex < KeyCount
      modifies keys
      ensures Valid() && unchanged(this)
      ensures Keys() == old(Keys())[keyIndex := pressed]
    {
      keys[keyIndex] := pressed;
    }
  }

  /** After `Update(k, p)` the key reads back as p and no other key moved:
      `Update` ensures `Keys() == old(Keys())[k := p]`, and `IsPressed(j)`
      returns `Keys()[j]`, so this is the value IsPressed sees. */
  lemma UpdateThenRead(keys: seq<bool>, k: nat, p: bool, j: nat)
    requires k < |keys| && j < |keys|
    ensures keys[k := p][j] == if j == k then p else keys[j]
  {
  }

  /** `Update(k, p)` twice has the effect of `Update(k, p)` once: by the
      ensures of `Update`, two calls leave `Keys()` equal to
      `old(Keys())[k := p][k := p]`. */
  lemma UpdateIdempotent(keys: seq<bool>, k: nat, p: bool)
    requires k < |keys|
    ensures keys[k := p][k := p] == keys[k := p]
  {
  }
}
