/**
 * The `CommandBehavior` enum: the twelve kinds of operation the server
 * reports back, each tied to a fixed text description, and the
 * case-insensitive lookup from a description back to its constant.
 */
module Command {
  import opened Wrappers

  datatype CommandBehavior =
    | Register
    | LoginByUsername
    | LoginBySessionId
    | FailedLogin
    | UpdateUser
    | ResetPassword
    | Logout
    | AddAdminUser
    | RemoveAdminUser
    | DeleteUser
    | DownloadDatabase
    | InvalidCommand

  /** The constants in declaration order, as `values()` returns them: each one exactly once. */
  function Values(): (vs: seq<CommandBehavior>)
    ensures |vs| == 12
    ensures forall c :: c in vs
    ensures forall i, j :: 0 <= i < j < |vs| ==> vs[i] != vs[j]
  {
    var vs := [Register, LoginByUsername, LoginBySessionId, FailedLogin, UpdateUser, ResetPassword,
               Logout, AddAdminUser, RemoveAdminUser, DeleteUser, DownloadDatabase, InvalidCommand];
    assert forall c :: c in vs by {
      forall c ensures c in vs {
        assert c == vs[0] || c == vs[1] || c == vs[2] || c == vs[3] || c == vs[4] || c == vs[5] ||
               c == vs[6] || c == vs[7] || c == vs[8] || c == vs[9] || c == vs[10] || c == vs[11];
      }
    }
    vs
  }

  /**
   * `getCommandDescription`: the description each constant is declared
   * with; every description is between 6 and 18 characters long.
   */
  function Description(c: CommandBehavior): (d: string)
    ensures 6 <= |d| <= 18
  {
    match c
    case Register => "register"
    case LoginByUsername => "login --username"
    case LoginBySessionId => "login --session-id"
    case FailedLogin => "failed login"
    case UpdateUser => "update-user"
    case ResetPassword => "reset-password"
    case Logout => "logout"
    case AddAdminUser => "add-admin-user"
    case RemoveAdminUser => "remove-admin-user"
    case DeleteUser => "delete-user"
    case DownloadDatabase => "download-database"
    case InvalidCommand => "invalid command"
  }

  /**
   * The character `equalsIgnoreCase` compares when one side is ASCII:
   * ASCII upper-case letters fold to lower case, and so do the four
   * non-ASCII characters whose Java case mappings land on an ASCII letter
   * (capital I with dot, dotless i, long s, Kelvin sign).
   */
  function FoldChar(ch: char): (r: char)
    ensures !('A' <= r <= 'Z')
    ensures 'a' <= ch <= 'z' ==> r == ch
    ensures ch < '\U{80}' ==> r < '\U{80}'
  {
    if 'A' <= ch <= 'Z' then (ch as int + 32) as char
    else if ch == '\U{0130}' || ch == '\U{0131}' then 'i'
    else if ch == '\U{017F}' then 's'
    else if ch == '\U{212A}' then 'k'
    else ch
  }

  /** The 52 ASCII letters. */
  predicate IsAsciiLetter(ch: char)
  {
    'A' <= ch <= 'Z' || 'a' <= ch <= 'z'
  }

  /**
   * Between two ASCII characters, folding identifies exactly a letter with
   * its partner of the other case (code points 32 apart).
   */
  lemma FoldCharAscii(c: char, d: char)
    requires c < '\U{80}' && d < '\U{80}'
    ensures FoldChar(c) == FoldChar(d) <==>
              c == d || (IsAsciiLetter(c) && IsAsciiLetter(d) && (c as int - d as int == 32 || d as int - c as int == 32))
  {
  }

  /**
   * A non-ASCII character folds together with an ASCII one only in the four
   * cases Java's case mappings produce: capital I with dot and dotless i
   * with i, long s with s, the Kelvin sign with k, each in either case.
   */
  lemma FoldCharNonAscii(c: char, d: char)
    requires c >= '\U{80}' && d < '\U{80}'
    ensures FoldChar(c) == FoldChar(d) <==>
              ((c == '\U{0130}' || c == '\U{0131}') && (d == 'i' || d == 'I'))
              || (c == '\U{017F}' && (d == 's' || d == 'S'))
              || (c == '\U{212A}' && (d == 'k' || d == 'K'))
  {
  }

  /**
   * `String.equalsIgnoreCase`: equal lengths and, position by position,
   * characters that are equal once folded.
   */
  predicate EqualsIgnoreCase(a: string, b: string)
    ensures EqualsIgnoreCase(a, b) ==> |a| == |b|
    ensures a == b ==> EqualsIgnoreCase(a, b)
  {
    |a| == |b| && (a == [] || (FoldChar(a[0]) == FoldChar(b[0]) && EqualsIgnoreCase(a[1..], b[1..])))
  }

  /** The position-wise reading of `EqualsIgnoreCase`. */
  lemma {:induction false} EqualsIgnoreCaseAt(a: string, b: string)
    ensures EqualsIgnoreCase(a, b) <==>
              |a| == |b| && forall i :: 0 <= i < |a| ==> FoldChar(a[i]) == FoldChar(b[i])
  {
    if |a| == |b| && a != [] {
      EqualsIgnoreCaseAt(a[1..], b[1..]);
      assert forall i :: 1 <= i < |a| ==> a[1..][i - 1] == a[i] && b[1..][i - 1] == b[i];
    }
  }

  /** Ignoring case is an equivalence: reflexive, symmetric and transitive. */
  lemma EqualsIgnoreCaseIsEquivalence(a: string, b: string, c: string)
    ensures EqualsIgnoreCase(a, a)
    ensures EqualsIgnoreCase(a, b) ==> EqualsIgnoreCase(b, a)
    ensures EqualsIgnoreCase(a, b) && EqualsIgnoreCase(b, c) ==> EqualsIgnoreCase(a, c)
  {
    EqualsIgnoreCaseAt(a, a);
    EqualsIgnoreCaseAt(a, b);
    EqualsIgnoreCaseAt(b, a);
    EqualsIgnoreCaseAt(b, c);
    EqualsIgnoreCaseAt(a, c);
  }

  /** Two strings that both equal `s` ignoring case equal each other ignoring case. */
  lemma BothEqualIgnoringCase(a: string, b: string, s: string)
    requires EqualsIgnoreCase(a, s) && EqualsIgnoreCase(b, s)
    ensures EqualsIgnoreCase(a, b)
  {
    EqualsIgnoreCaseIsEquivalence(a, s, b);
    EqualsIgnoreCaseIsEquivalence(b, s, b);
  }

  /** The twelve descriptions are pairwise distinct, even ignoring case. */
  lemma {:induction false} DescriptionsDistinctIgnoringCase(c: CommandBehavior, d: CommandBehavior)
    requires c != d
    ensures !EqualsIgnoreCase(Description(c), Description(d))
  {
    var a, b := Description(c), Description(d);
    // the descriptions either differ in length or in their first character
    assert |a| != |b| || FoldChar(a[0]) != FoldChar(b[0]);
  }

  /**
   * The loop of `getCommandByDescription` over the constants `cs`: the
   * first constant whose description equals `s` ignoring case, or `None`.
   */
  function FirstMatch(cs: seq<CommandBehavior>, s: string): (r: Option<CommandBehavior>)
    ensures r.Some? ==> r.value in cs && EqualsIgnoreCase(Description(r.value), s)
    ensures r.None? <==> NoneMatches(cs, s)
  {
    if cs == [] then None
    else if EqualsIgnoreCase(Description(cs[0]), s) then Some(cs[0])
    else FirstMatch(cs[1..], s)
  }

  /**
   * The scan returns the first match: when `c` matches and no constant
   * before it does, the result is `c`, whatever follows it.
   */
  lemma {:induction false} FirstMatchIsFirst(before: seq<CommandBehavior>, c: CommandBehavior,
                                             after: seq<CommandBehavior>, s: string)
    requires NoneMatches(before, s) && EqualsIgnoreCase(Description(c), s)
    ensures FirstMatch(before + [c] + after, s) == Some(c)
    decreases |before|
  {
    var cs := before + [c] + after;
    if before == [] {
      assert cs[0] == c;
    } else {
      assert before[0] in before;
      assert cs[0] == before[0] && cs[1..] == before[1..] + [c] + after;
      assert forall d :: d in before[1..] ==> d in before;
      FirstMatchIsFirst(before[1..], c, after, s);
    }
  }

  /** No constant of `cs` has a description equal to `s` ignoring case. */
  predicate NoneMatches(cs: seq<CommandBehavior>, s: string)
  {
    forall c :: c in cs ==> !EqualsIgnoreCase(Description(c), s)
  }

  /**
   * `getCommandByDescription`: the first constant, in declaration order,
   * whose description equals `s` ignoring case; `None` (Java's `null`)
   * when no description matches.
   */
  function GetCommandByDescription(s: string): (r: Option<CommandBehavior>)
    ensures r.Some? ==> EqualsIgnoreCase(Description(r.value), s)
    ensures r.None? <==> forall c :: !EqualsIgnoreCase(Description(c), s)
  {
    FirstMatch(Values(), s)
  }

  /**
   * Because the descriptions are distinct ignoring case, the lookup is
   * exact: it yields `c` if and only if `s` equals `c`'s description
   * ignoring case.
   */
  lemma GetCommandByDescriptionExact(s: string, c: CommandBehavior)
    ensures GetCommandByDescription(s) == Some(c) <==> EqualsIgnoreCase(Description(c), s)
  {
    var r := GetCommandByDescription(s);
    if EqualsIgnoreCase(Description(c), s) {
      assert r.Some?;
      if r.value != c {
        DescriptionsDistinctIgnoringCase(c, r.value);
        BothEqualIgnoringCase(Description(c), Description(r.value), s);
        assert false;
      }
    }
  }

  /** Round trip: looking up a constant's own description yields that constant. */
  lemma DescriptionRoundTrip(c: CommandBehavior)
    ensures GetCommandByDescription(Description(c)) == Some(c)
  {
    EqualsIgnoreCaseIsEquivalence(Description(c), Description(c), Description(c));
    GetCommandByDescriptionExact(Description(c), c);
  }

  /** Matching ignores case: upper-case text finds the constant. */
  lemma UpperCaseLogoutFindsLogout()
    ensures GetCommandByDescription("LOGOUT") == Some(Logout)
  {
    assert EqualsIgnoreCase(Description(Logout), "LOGOUT");
    GetCommandByDescriptionExact("LOGOUT", Logout);
  }

  /** A prefix of two descriptions is itself no description, in any case. */
  lemma BareLoginFindsNothing()
    ensures GetCommandByDescription("LOGIN") == None
  {
    forall c ensures !EqualsIgnoreCase(Description(c), "LOGIN") {
      assert |Description(c)| != |"LOGIN"|;
    }
  }
}
