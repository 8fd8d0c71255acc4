/** Results of operations that may throw, values that may be absent, and a few small helpers. */
module Wrappers {

  datatype Option<+T> = None | Some(value: T)

  datatype Result<+T> = Ok(value: T) | Err

  /** The bytes of a message. */
  type Buffer = seq<nat>

  // ---- Counters, all at 0 unless they say otherwise ----

  function Count<K>(c: map<K, nat>, k: K): nat {
    if k in c then c[k] else 0
  }

  function Increment<K>(c: map<K, nat>, k: K): map<K, nat> {
    c[k := Count(c, k) + 1]
  }

  function One(b: bool): nat {
    if b then 1 else 0
  }
}
