/** Values that may be absent, and facts that are kept folded. */
module Wrappers {

  datatype Option<+T> = None | Some(value: T)

  /** k is n.  Facts about long code, deep evaluations and rotated sequences are
      stated for every k that is exactly n: they stay folded until that k is
      named. */
  predicate Exactly(k: nat, n: nat) { k == n }
}
