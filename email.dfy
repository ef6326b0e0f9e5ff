/** `isValidEmail`: the regular expression `^[^\s@]+@[^\s@]+\.[^\s@]+$`
    tested against the whole string. It is a simplified check, not the
    addr-spec grammar of section 3.4.1 of RFC 5322. */
module Email {
  import opened Wrappers

  /** Characters matched by the ECMAScript class `\s`: the WhiteSpace and
      LineTerminator code points of ECMA-262, with the Unicode space
      separators of current Unicode versions (tab,
      line feed, vertical tab, form feed, carriage return, space, no-break
      space, ogham space mark, U+2000 to U+200A, line and paragraph
      separators, narrow no-break space, medium mathematical space,
      ideographic space and the byte order mark). */
  predicate IsWs(c: char) {
    var n := c as int;
    || (9 <= n <= 13) || n == 0x20 || n == 0xA0 || n == 0x1680
    || (0x2000 <= n <= 0x200A) || n == 0x2028 || n == 0x2029
    || n == 0x202F || n == 0x205F || n == 0x3000 || n == 0xFEFF
  }

  /** A character matched by `[^\s@]`. */
  predicate Plain(c: char) {
    !IsWs(c) && c != '@'
  }

  /** Every character of `t` matches `[^\s@]`. */
  predicate AllPlain(t: string) {
    forall k :: 0 <= k < |t| ==> Plain(t[k])
  }

  // ---------------------------------------------------------------------
  // The regular expression's own meaning

  /** `s` matches the pattern with the `@` at `i` and the literal `.` at
      `j`: three non-empty runs of `[^\s@]` around them, the first starting
      at the beginning of `s` and the last ending at its end. */
  ghost predicate PatternSplit(s: string, i: int, j: int) {
    && 0 < i && i + 1 < j && j + 1 < |s|
    && s[i] == '@' && s[j] == '.'
    && AllPlain(s[..i]) && AllPlain(s[i + 1..j]) && AllPlain(s[j + 1..])
  }

  ghost predicate MatchesPattern(s: string) {
    exists i, j :: PatternSplit(s, i, j)
  }

  // ---------------------------------------------------------------------
  // The check, computed by splitting at the `@`

  /** Position of the first `@` in `s`, if there is one. */
  function FirstAt(s: string): (r: Option<nat>)
    ensures r.Some? ==> r.value < |s| && s[r.value] == '@'
                        && forall k :: 0 <= k < r.value ==> s[k] != '@'
    ensures r.None? ==> forall k :: 0 <= k < |s| ==> s[k] != '@'
  {
    if s == [] then None
    else if s[0] == '@' then Some(0)
    else
      match FirstAt(s[1..])
      case None => None
      case Some(k) => Some(k + 1)
  }

  /** `d` has a `.` somewhere other than its first or last position. */
  predicate HasInnerDot(d: string) {
    exists p :: 0 < p < |d| - 1 && d[p] == '.'
  }

  /** `isValidEmail(s)`: `s` is a non-empty local part, an `@` and a domain,
      where neither part contains whitespace or `@` and the domain has a `.`
      that is neither its first nor its last character. */
  predicate IsValidEmail(s: string): (r: bool)
    ensures r ==> |s| >= 5 && Plain(s[0]) && Plain(s[|s| - 1])
  {
    match FirstAt(s)
    case None => false
    case Some(i) =>
      && i > 0
      && AllPlain(s[..i])
      && AllPlain(s[i + 1..])
      && HasInnerDot(s[i + 1..])
  }

  /** Splitting at the first `@` decides exactly the language of the
      regular expression. */
  lemma IsValidEmailMatchesPattern(s: string)
    ensures IsValidEmail(s) <==> MatchesPattern(s)
  {
    if IsValidEmail(s) {
      var i := FirstAt(s).value;
      var d := s[i + 1..];
      var p :| 0 < p < |d| - 1 && d[p] == '.';
      var j := i + 1 + p;
      assert s[i + 1..j] == d[..p];
      assert s[j + 1..] == d[p + 1..];
      assert PatternSplit(s, i, j);
    }
    if MatchesPattern(s) {
      var i, j :| PatternSplit(s, i, j);
      assert forall k :: 0 <= k < i ==> s[k] == s[..i][k];
      assert FirstAt(s) == Some(i);
      var d := s[i + 1..];
      assert forall k :: 0 <= k < |d| ==> Plain(d[k]) by {
        forall k | 0 <= k < |d|
          ensures Plain(d[k])
        {
          if i + 1 + k < j {
            assert d[k] == s[i + 1..j][k];
          } else if i + 1 + k > j {
            assert d[k] == s[j + 1..][k - (j - i)];
          }
        }
      }
      assert d[j - i - 1] == '.';
    }
  }

  /** The check in the terms of the address: `s` is `L + "@" + D` where
      `L` is non-empty, neither `L` nor `D` contains whitespace or `@`, and
      `D` has a `.` that is neither its first nor its last character. */
  lemma IsValidEmailIffLocalAtDomain(s: string)
    ensures IsValidEmail(s) <==>
              exists i :: 0 < i < |s| && s[i] == '@' && AllPlain(s[..i])
                          && AllPlain(s[i + 1..]) && HasInnerDot(s[i + 1..])
  {
  }

  /** A valid address has exactly one `@`, and it is not the first
      character. */
  lemma ValidEmailHasOneAt(s: string)
    requires IsValidEmail(s)
    ensures exists i :: 0 < i < |s| && s[i] == '@'
    ensures forall i, j :: 0 <= i < |s| && 0 <= j < |s| && s[i] == '@' && s[j] == '@' ==> i == j
  {
  }
}
