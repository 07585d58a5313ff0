/** The slice of JavaScript value semantics that the configuration code of run.js
    relies on: environment values are strings or `undefined`, `||` selects by
    truthiness, `+` turns `undefined` into the text "undefined". */
module JsValues {

  /** A value read from `process.env`, or a setting built from one. */
  datatype Value = Undefined | Str(s: string)

  /** JavaScript truthiness restricted to these values: only a non-empty string is truthy. */
  predicate Truthy(v: Value)
  {
    v.Str? && v.s != ""
  }

  /** The expression `a || b`: the left operand when it is truthy, else the right one. */
  function Or(a: Value, b: Value): Value
  {
    if Truthy(a) then a else b
  }

  /** The text that string concatenation produces for a value. */
  function ToStr(v: Value): string
  {
    match v
    case Undefined => "undefined"
    case Str(s) => s
  }

  /** `toLowerCase` on one character, for the ASCII letters. */
  function LowerChar(c: char): char
  {
    if 'A' <= c <= 'Z' then (c as int + 32) as char else c
  }

  /** `String.prototype.toLowerCase`, restricted to ASCII: each upper-case letter
      becomes its lower-case partner, every other character is kept. */
  function ToLowerCase(s: string): (r: string)
    ensures |r| == |s|
    ensures forall i :: 0 <= i < |r| ==> !('A' <= r[i] <= 'Z')
    ensures forall i :: 0 <= i < |s| && !('A' <= s[i] <= 'Z') ==> r[i] == s[i]
    ensures forall i :: 0 <= i < |s| && 'A' <= s[i] <= 'Z' ==> r[i] as int == s[i] as int + 32
  {
    seq(|s|, i requires 0 <= i < |s| => LowerChar(s[i]))
  }
}
