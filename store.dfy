/**
 * The part of the ioBroker object/state store that the linkeddevices
 * reconciliation pass reads and writes, as plain values.
 */
module StoreModel {

  datatype Option<T> = None | Some(value: T)

  /** A JSON-like value: a state's value or a metadata field the pass only copies. */
  datatype Value = Null | Bool(b: bool) | Number(n: real) | Text(s: string)

  /** A state: its current value and its acknowledgement flag. */
  datatype State = State(val: Value, ack: bool)

  /**
   * The block an adapter instance keeps under `common.custom[<instance namespace>]`.
   * On a parent object linkeddevices reads `enabled` (only its truthiness matters),
   * `id` and `name`; on a linked object it writes `parentId` and `linked`.
   * `None` stands for a field that is absent (undefined or null).
   * Any other field of the block is kept in `other`.
   */
  datatype Custom = Custom(
    enabled: bool,
    id: Option<string>,
    name: Option<string>,
    parentId: Option<string>,
    linked: Option<bool>,
    other: map<string, Value>)

  /**
   * The `common` part of an object: display name, description, the custom
   * blocks of all adapter instances keyed by namespace, and every other field.
   */
  datatype Common = Common(
    name: string,
    desc: Option<string>,
    custom: map<string, Custom>,
    other: map<string, Value>)

  /** A store object (`type`, `common`, `native`); its id is the key it is stored under. */
  datatype Obj = Obj(kind: string, common: Common, native: map<string, Value>)

  /** The two configuration errors the generation phase logs, naming the parent. */
  datatype ConfigError =
    | MissingLinkId(parentId: string)
    | InvalidLinkId(parentId: string, linkedId: string)

  /** How a pass ends: normally, or by the TypeError raised while visiting a parent. */
  datatype Outcome = Completed | Aborted(parentId: string)

  /** The store's objects and states, and the adapter's error log. */
  datatype Store = Store(
    objects: map<string, Obj>,
    states: map<string, State>,
    errors: seq<ConfigError>)

  /** The store after an operation, with the way the operation ended. */
  datatype Run = Run(store: Store, outcome: Outcome)

  /** `m` and `m'` agree at `k`: both lack it, or both hold the same value there. */
  predicate SameAt<K, V(==)>(m: map<K, V>, m': map<K, V>, k: K)
  {
    (k in m <==> k in m') && (k in m ==> m[k] == m'[k])
  }
}
