/**
 * Shared vocabulary of the server: the outcome of a request handler (a success
 * value, or one of the error kinds the handlers answer with together with the
 * message they send), JavaScript truthiness of request fields, and the
 * JavaScript string primitives the handlers and the Mongoose setters use
 * (`trim`, the `\s` character class, `toLowerCase`).
 */
module Common {

  datatype Option<+T> = None | Some(value: T)

  /** The status constants the handlers answer with. */
  datatype ErrorKind =
    | ValidationError
    | Conflict
    | Unauthorized
    | NotFound
    | NoContent
    | ServerError

  /** What a handler sends back: a success payload, or an error kind and its message. */
  datatype Outcome<+T> = Ok(value: T) | Fail(kind: ErrorKind, message: string)

  /**
   * Messages of the exceptions that reach `sendServerError`: a save refused by
   * a schema validator, a write refused by a unique index, and the error
   * `sendEmail` throws when delivery fails.
   */
  const SaveRejected := "document failed validation"
  const DuplicateKey := "E11000 duplicate key error"
  const MailFailed := "Error sending email"

  /**
   * A field of a JSON request body that should hold a string. `None` is a
   * field that is absent (undefined) or null.
   */
  type Field = Option<string>

  /** JavaScript `!!x` for a string-valued request field: present and non-empty. */
  predicate Truthy(f: Field) {
    f.Some? && f.value != ""
  }

  /**
   * The characters JavaScript's `\s` class and `String.prototype.trim` treat
   * as white space: the WhiteSpace and LineTerminator productions of ECMAScript.
   */
  predicate IsSpace(c: char) {
    var n := c as int;
    n == 0x09 || n == 0x0A || n == 0x0B || n == 0x0C || n == 0x0D || n == 0x20
    || n == 0xA0 || n == 0x1680 || (0x2000 <= n <= 0x200A)
    || n == 0x2028 || n == 0x2029 || n == 0x202F || n == 0x205F
    || n == 0x3000 || n == 0xFEFF
  }

  /** Every character of `s` from index `lo` up to `hi` is white space. */
  predicate SpaceBetween(s: string, lo: int, hi: int) {
    forall i :: 0 <= lo <= i < hi <= |s| ==> IsSpace(s[i])
  }

  predicate NoSpace(s: string) {
    forall i :: 0 <= i < |s| ==> !IsSpace(s[i])
  }

  /** `s.trimStart()`: the longest suffix of `s` that does not start with white space. */
  function TrimStart(s: string): (r: string)
    ensures |r| <= |s| && r == s[|s| - |r|..]
    ensures r == [] || !IsSpace(r[0])
    ensures forall i :: 0 <= i < |s| - |r| ==> IsSpace(s[i])
  {
    if s != [] && IsSpace(s[0]) then TrimStart(s[1..]) else s
  }

  /** `s.trimEnd()`: the longest prefix of `s` that does not end with white space. */
  function TrimEnd(s: string): (r: string)
    ensures |r| <= |s| && r == s[..|r|]
    ensures r == [] || !IsSpace(r[|r| - 1])
    ensures forall i :: |r| <= i < |s| ==> IsSpace(s[i])
  {
    if s != [] && IsSpace(s[|s| - 1]) then TrimEnd(s[..|s| - 1]) else s
  }

  /** `s.trim()`, which is also what a Mongoose `trim: true` setter stores. */
  function Trim(s: string): (r: string)
    ensures |r| <= |s|
    ensures r == [] || (!IsSpace(r[0]) && !IsSpace(r[|r| - 1]))
    ensures var k := |s| - |TrimStart(s)|;
      && k + |r| <= |s| && r == s[k..k + |r|]
      && SpaceBetween(s, 0, k) && SpaceBetween(s, k + |r|, |s|)
  {
    var t := TrimStart(s);
    var r := TrimEnd(t);
    SliceBetweenSpaces(s, t, r);
    r
  }

  /** A suffix `t` of `s` after white space, and a prefix `r` of `t` before white space. */
  lemma SliceBetweenSpaces(s: string, t: string, r: string)
    requires |t| <= |s| && t == s[|s| - |t|..]
    requires forall i :: 0 <= i < |s| - |t| ==> IsSpace(s[i])
    requires t == [] || !IsSpace(t[0])
    requires |r| <= |t| && r == t[..|r|]
    requires forall i :: |r| <= i < |t| ==> IsSpace(t[i])
    requires r == [] || !IsSpace(r[|r| - 1])
    ensures var k := |s| - |t|;
      && (r == [] || (!IsSpace(r[0]) && !IsSpace(r[|r| - 1])))
      && k + |r| <= |s| && r == s[k..k + |r|] && SpaceBetween(s, 0, k) && SpaceBetween(s, k + |r|, |s|)
  {
    var k := |s| - |t|;
    assert r == s[k..k + |r|];
    forall i | k + |r| <= i < |s| ensures IsSpace(s[i]) {
      assert s[i] == t[i - k];
    }
    if r != [] {
      assert r[0] == t[0];
    }
  }

  /** `c.toLowerCase()` on one character, for the ASCII letters. */
  function LowerChar(c: char): char {
    if 'A' <= c <= 'Z' then (c as int + 32) as char else c
  }

  /** `s.toLowerCase()`, modelled on ASCII letters only. */
  function Lower(s: string): (r: string)
    ensures |r| == |s|
    ensures forall i :: 0 <= i < |s| ==> r[i] == LowerChar(s[i])
  {
    if s == [] then [] else [LowerChar(s[0])] + Lower(s[1..])
  }

  predicate IsDigit(c: char) {
    '0' <= c <= '9'
  }
}
