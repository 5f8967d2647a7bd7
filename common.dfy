/**
  Small value types shared by the catalog and the controller: an optional
  value, a success-or-error result, and the two pieces of JavaScript string
  semantics the controller relies on (truthiness and `String.prototype.includes`).
*/
module Common {

  datatype Option<+T> = None | Some(value: T)

  datatype Result<+R, +E> = Ok(value: R) | Err(error: E)

  /** JavaScript truthiness of an optional string: absent and "" are falsy. */
  predicate Truthy(s: Option<string>) {
    s.Some? && s.value != ""
  }

  /** `s.startsWith(p)` */
  predicate StartsWith(s: string, p: string) {
    |p| <= |s| && s[..|p|] == p
  }

  /** `s.includes(p)`: `p` occurs at some position of `s`. */
  predicate Contains(s: string, p: string)
    decreases |s|
  {
    StartsWith(s, p) || (|s| > 0 && Contains(s[1..], p))
  }

  /** `Contains` holds exactly when some slice of `s` equals `p`. */
  lemma {:induction false} ContainsAt(s: string, p: string, k: nat)
    requires k + |p| <= |s| && s[k..k + |p|] == p
    ensures Contains(s, p)
    decreases k
  {
    if k == 0 {
      assert s[..|p|] == s[k..k + |p|];
    } else {
      assert s[1..][k - 1..k - 1 + |p|] == s[k..k + |p|];
      ContainsAt(s[1..], p, k - 1);
    }
  }

  /** A pattern whose first character does not occur in `s` is not contained in `s`. */
  lemma {:induction false} NotContainsFirstChar(s: string, p: string)
    requires |p| > 0 && p[0] !in s
    ensures !Contains(s, p)
    decreases |s|
  {
    if |p| <= |s| {
      assert s[..|p|][0] == s[0];
    }
    if |s| > 0 {
      assert forall c :: c in s[1..] ==> c in s;
      NotContainsFirstChar(s[1..], p);
    }
  }

  /** A string that contains `p` contains every slice of `p`. */
  lemma {:induction false} ContainsSlice(s: string, p: string, j: nat, q: string)
    requires Contains(s, p) && j + |q| <= |p| && p[j..j + |q|] == q
    ensures Contains(s, q)
    decreases |s|
  {
    if StartsWith(s, p) {
      assert s[j..j + |q|] == p[j..j + |q|];
      ContainsAt(s, q, j);
    } else {
      ContainsSlice(s[1..], p, j, q);
    }
  }
}
