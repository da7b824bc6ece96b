/** Small shared vocabulary: optional values, results, and the JavaScript
    truthiness of request fields. */
module Common {

  datatype Option<+T> = None | Some(value: T)

  datatype Result<+R, +E> = Ok(value: R) | Err(error: E)

  /** A request field is truthy when it is present and non-empty.  Absent
      fields are modelled as the empty string, which is falsy as well. */
  predicate Truthy(s: string) {
    s != []
  }

  /** A nullable file name is truthy when it is present and non-empty. */
  predicate TruthyName(f: Option<string>) {
    f.Some? && f.value != []
  }

  /** A lower-case hexadecimal digit, as produced by Node's `toString('hex')`. */
  predicate IsHexDigit(c: char) {
    ('0' <= c <= '9') || ('a' <= c <= 'f')
  }

  /** `s` is the hex encoding of `n` random bytes. */
  predicate IsHexOfBytes(s: string, n: nat) {
    |s| == 2 * n && forall i :: 0 <= i < |s| ==> IsHexDigit(s[i])
  }
}
