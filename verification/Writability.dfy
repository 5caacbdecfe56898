/** Whether a transaction could have written an address (src/reconstruct.rs). */
module Writability {
  import opened Lift
  import opened Wrappers

  function Minus(a: nat, b: nat): nat { if a < b then 0 else a - b }

  function Position(keys: seq<Key>, k: Key): (r: Option<nat>)
    ensures r.Some? ==> r.value < |keys| && keys[r.value] == k
    ensures r.None? <==> k !in keys
  {
    if keys == [] then None
    else if keys[0] == k then Some(0)
    else match Position(keys[1..], k)
      case None => None
      case Some(i) => Some(i + 1)
  }

  function IsWritable(m: Message, loadedW: seq<Key>, loadedR: seq<Key>, k: Key): Option<bool> {
    match Position(m.keys, k)
    case Some(i) =>
      Some(if i < m.header.signed then i < Minus(m.header.signed, m.header.roSigned)
           else i < Minus(|m.keys|, m.header.roUnsigned))
    case None => if k in loadedW then Some(true) else if k in loadedR then Some(false) else None
  }

  /** For a message the runtime could accept, the answer is the runtime's own, and
      there is one exactly when the transaction names the address. */
  lemma IsWritableAsTheRuntimeHasIt(o: Original, k: Key)
    requires HeaderFits(o.message) && Distinct(AllKeys(o))
    ensures IsWritable(o.message, o.loadedW, o.loadedR, k).Some? <==> k in AllKeys(o)
    ensures forall i :: 0 <= i < |AllKeys(o)| && AllKeys(o)[i] == k ==>
              IsWritable(o.message, o.loadedW, o.loadedR, k) == Some(WritableAt(o.message, |o.loadedW|, i))
  {
    var n, w, all := |o.message.keys|, |o.loadedW|, AllKeys(o);
    forall i | 0 <= i < |all| && all[i] == k
      ensures IsWritable(o.message, o.loadedW, o.loadedR, k) == Some(WritableAt(o.message, w, i))
    {
      if k in o.message.keys {
        assert all[Position(o.message.keys, k).value] == k;
      } else if k in o.loadedW {
        var j :| 0 <= j < w && o.loadedW[j] == k;
        assert all[n + j] == k;
      } else {
        assert i >= n + w;
      }
    }
  }
}
