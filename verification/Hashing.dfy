/** SHA-256, which codes are stored under, is a function parameter throughout; its only property is this one. */
module Hashing {
  ghost predicate Injective(hash: string -> string) {
    forall a, b :: hash(a) == hash(b) ==> a == b
  }
}
