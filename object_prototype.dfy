/**
 * The properties every object literal inherits from `Object.prototype`. A
 * lookup `obj[name]` on a table such as `sortFuncs` or `filterMap` finds
 * these even though the table does not declare them.
 */
module ObjectPrototype {

  /** The names of the inherited properties. */
  const InheritedNames: set<string> := {
    "constructor", "hasOwnProperty", "isPrototypeOf", "propertyIsEnumerable",
    "toLocaleString", "toString", "valueOf", "__proto__",
    "__defineGetter__", "__defineSetter__", "__lookupGetter__", "__lookupSetter__"}

  /**
   * The inherited methods that start with `ToObject(this)`, so they throw a
   * `TypeError` when called with `this` undefined (every one except
   * `toString`, `constructor` and the non-function `__proto__`).
   */
  const NeedObjectThis: set<string> := InheritedNames - {"toString", "constructor", "__proto__"}
}
