/** What every object literal of JavaScript has in common. */
module ObjectLiterals {

  /** Assigned on an object literal, this key sets its prototype or does nothing: it becomes no key of it. */
  const PROTO := "__proto__"
}
