/** The user record and its e-mail validator (models/user.py). */
module UserModel {

  datatype User = User(id: int, email: string, passwordHash: string, isAdmin: bool)

  datatype EmailCheck = Accepted(address: string) | Rejected(error: string)

  predicate NoAt(s: string) {
    '@' !in s
  }

  /** `s` begins with `s[..a] + "@" + s[a+1..b] + "." + s[b+1..c]`, three
      non-empty runs without `@`: one way the pattern `[^@]+@[^@]+\.[^@]+`
      can match at the start of `s`. */
  ghost predicate MatchesAt(s: string, a: int, b: int, c: int) {
    && 0 < a && a + 1 < b && b + 1 < c && c <= |s|
    && NoAt(s[..a]) && s[a] == '@'
    && NoAt(s[a + 1..b]) && s[b] == '.'
    && NoAt(s[b + 1..c])
  }

  /** `re.match(r"[^@]+@[^@]+\.[^@]+", s)` succeeds: the match is anchored at
      the start only, so anything may follow. */
  ghost predicate PatternMatches(s: string) {
    exists a, b, c :: MatchesAt(s, a, b, c)
  }

  /** `User.validate_email`: returns the address unchanged when the pattern
      matches, raises `ValueError("Invalid email format")` otherwise. */
  method ValidateEmail(address: string) returns (r: EmailCheck)
    ensures r.Accepted? <==> PatternMatches(address)
    ensures r.Accepted? ==> r.address == address
    ensures r.Rejected? ==> r.error == "Invalid email format"
  {
    var s := address;
    // The first '@': the local part is everything before it.
    var a := 0;
    while a < |s| && s[a] != '@'
      invariant 0 <= a <= |s|
      invariant NoAt(s[..a])
    {
      a := a + 1;
    }
    forall x, y, z | MatchesAt(s, x, y, z) ensures x == a {
      LocalPartIsFirstRun(s, a, x, y, z);
    }
    if a == |s| || a == 0 {
      return Rejected("Invalid email format");
    }
    // The run after the '@' ends at the next '@' or at the end.
    var j := a + 1;
    while j < |s| && s[j] != '@'
      invariant a + 1 <= j <= |s|
      invariant NoAt(s[a + 1..j])
    {
      j := j + 1;
    }
    forall y, z | MatchesAt(s, a, y, z) ensures a + 2 <= y && y + 1 < j && s[y] == '.' {
      DotBeforeNextAt(s, a, j, y, z);
    }
    // A dot inside that run with at least one character of it on each side.
    if exists b :: a + 2 <= b && b + 1 < j && s[b] == '.' {
      var b :| a + 2 <= b && b + 1 < j && s[b] == '.';
      assert MatchesAt(s, a, b, b + 2) by {
        assert s[a + 1..b] == s[a + 1..j][..b - a - 1];
        assert s[b + 1] == s[a + 1..j][b - a];
        assert s[b + 1..b + 2] == [s[b + 1]];
      }
      return Accepted(address);
    } else {
      return Rejected("Invalid email format");
    }
  }

  /** Any match's local part ends at the first '@'. */
  lemma LocalPartIsFirstRun(s: string, a: int, x: int, y: int, z: int)
    requires 0 <= a <= |s| && NoAt(s[..a]) && (a < |s| ==> s[a] == '@')
    requires MatchesAt(s, x, y, z)
    ensures x == a
  {
    forall k | 0 <= k < x ensures s[k] != '@' {
      assert s[k] == s[..x][k];
    }
    forall k | 0 <= k < a ensures s[k] != '@' {
      assert s[k] == s[..a][k];
    }
  }

  /** Any match's dot, and the character after it, come before the next '@'
      after the local part. */
  lemma DotBeforeNextAt(s: string, a: int, j: int, y: int, z: int)
    requires 0 < a < |s| && s[a] == '@'
    requires a + 1 <= j <= |s| && NoAt(s[a + 1..j]) && (j < |s| ==> s[j] == '@')
    requires MatchesAt(s, a, y, z)
    ensures a + 2 <= y && y + 1 < j && s[y] == '.'
  {
    forall k | a + 1 <= k < z ensures s[k] != '@' {
      if k < y {
        assert s[k] == s[a + 1..y][k - a - 1];
      } else if k > y {
        assert s[k] == s[y + 1..z][k - y - 1];
      }
    }
  }

  /** Matching is anchored at the start only: text after a matching prefix,
      even another '@', does not matter. */
  lemma TrailingTextAccepted()
    ensures PatternMatches("a@b.c@d")
  {
    assert MatchesAt("a@b.c@d", 1, 3, 5);
  }
}
