/** The simple thing the file store must agree with: one map from keys to values. */
module KvMap {
  import opened Common

  type Store = map<string, string>

  datatype Op = PutOp(key: string, value: string) | DelOp(key: string)

  function Lookup(m: Store, k: string): Option<string> {
    if k in m then Some(m[k]) else None
  }

  /** What kvserver_put_check and kvserver_del_check answer for a store holding `m`. */
  function Check(op: Op, m: Store): int {
    if |op.key| > MAX_KEYLEN || |op.key| == 0 then ERRKEYLEN
    else match op
      case PutOp(_, v) => if |v| > MAX_VALLEN then ERRVALLEN else 0
      case DelOp(k) => if k !in m then ERRNOKEY else 0
  }

  /** The map after an operation; an operation the checks refuse changes nothing. */
  function Apply(op: Op, m: Store): Store {
    if Check(op, m) != 0 then m
    else match op
      case PutOp(k, v) => m[k := v]
      case DelOp(k) => m - {k}
  }
}
