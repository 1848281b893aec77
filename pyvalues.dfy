/** Python values, exceptions and the one string method (`str.strip`) that the
    record-handling code relies on. */
module PyValues {

  datatype Option<T> = None | Some(value: T)

  /** The value of a Python expression, or the exception it raised. */
  datatype Result<T> = Ok(value: T) | Err(error: Error)

  /** A statement that either completes or raises. */
  datatype Outcome = Pass | Fail(error: Error)

  /** The exceptions the core can raise. */
  datatype Error =
    | TypeError                  // a call with missing or unexpected keyword arguments
    | KeyError(key: string)      // a lookup of a key the dict does not hold
    | IndexError                 // a list index out of range
    | StopIteration              // `next` on an exhausted iterator
    | RuntimeError(message: string)

  /** The dynamically typed values a record field or a dict entry can hold.
      Floats are opaque: they are only copied and compared, never computed with,
      so a float is represented by the exact value of its literal. */
  datatype Value = PyNone | PyInt(i: int) | PyFloat(x: real) | PyStr(s: string)

  /** The characters for which Python's `str.isspace` holds. */
  predicate IsSpace(c: char)
  {
    var n := c as int;
    (9 <= n <= 13) || (28 <= n <= 32) || n == 0x85 || n == 0xA0 || n == 0x1680 ||
    (0x2000 <= n <= 0x200A) || n == 0x2028 || n == 0x2029 || n == 0x202F ||
    n == 0x205F || n == 0x3000
  }

  /** Every character of `s` is whitespace (true of the empty string). */
  predicate Blank(s: string)
  {
    forall i :: 0 <= i < |s| ==> IsSpace(s[i])
  }

  /** `s.lstrip()`: drop leading whitespace, and only that. */
  function TrimLeft(s: string): (r: string)
    ensures |r| <= |s| && r == s[|s| - |r|..]
    ensures Blank(s[..|s| - |r|])
    ensures r == [] <==> Blank(s)
    ensures r != [] ==> !IsSpace(r[0])
  {
    if |s| > 0 && IsSpace(s[0]) then TrimLeft(s[1..]) else s
  }

  /** `s.rstrip()`: drop trailing whitespace, and only that. */
  function TrimRight(s: string): (r: string)
    ensures |r| <= |s| && r == s[..|r|]
    ensures Blank(s[|r|..])
    ensures r != [] ==> !IsSpace(r[|r| - 1])
    ensures |s| > 0 && !IsSpace(s[0]) ==> r != []
  {
    if |s| > 0 && IsSpace(s[|s| - 1]) then TrimRight(s[..|s| - 1]) else s
  }

  /** `s.strip()`: a slice of `s` whose cut-off ends are whitespace and
      which itself neither starts nor ends with whitespace. */
  function Strip(s: string): (r: string)
    ensures |r| <= |s|
    ensures exists a :: 0 <= a && a + |r| <= |s| && r == s[a..a + |r|] &&
                        Blank(s[..a]) && Blank(s[a + |r|..])
    ensures r != [] ==> !IsSpace(r[0]) && !IsSpace(r[|r| - 1])
  {
    var t := TrimLeft(s);
    var r := TrimRight(t);
    assert r != [] ==> r[0] == t[0];
    r
  }

  /** `not s.strip()` holds exactly when `s` is empty or all whitespace. */
  lemma StripEmptyIffBlank(s: string)
    ensures Strip(s) == [] <==> Blank(s)
  {
    var t := TrimLeft(s);
    if t != [] {
      assert !IsSpace(t[0]);
    }
  }
}
