/**
 * The Ruby values the debugger sees in a paused scope and hands to the
 * object manager. Integers stand for Ruby's `Numeric`; floating-point
 * numbers are not modelled.
 */
module Values {
  import opened Wrappers

  /**
   * What a non-builtin object answers to `respond_to?`: the value each
   * conversion would return, or `None` when the object does not respond.
   * `debugProperties` is `chrome_debug_properties`; the others are
   * `to_a`, `attributes`, `to_hash` and `to_h`.
   */
  datatype Capabilities = Capabilities(
    debugProperties: Option<Value>,
    toA: Option<Value>,
    attributes: Option<Value>,
    toHash: Option<Value>,
    toH: Option<Value>)

  datatype Value =
    | Str(s: string)
    | Num(n: int)
    | Bool(b: bool)
    | Sym(name: string)
    | Arr(elements: seq<Value>)
    | Nil
      /**
       * An insertion-ordered Hash; `text` is what its `to_s` returns. The
       * keys are assumed distinct, as in a Ruby Hash; the type does not
       * enforce it.
       */
    | Hash(entries: seq<(Value, Value)>, text: string)
      /**
       * Any other object: its class name, what its `to_s` returns, its
       * conversions, and its instance variables (names include the `@`)
       * in definition order. The names are assumed distinct, as in Ruby;
       * the type does not enforce it.
       */
    | Other(className: string, text: string, capabilities: Capabilities, ivars: seq<(string, Value)>)

  const NoCapabilities := Capabilities(None, None, None, None, None)
}
