/**
 * The pure collection operations the application applies to an ordered
 * list of records: `filter(u => u.email !== email)` and
 * `some(u => u.email === email)`, with the properties they are relied on for.
 */
module Filtering {
  import opened Records

  /** True iff some record of `s` has email `email` (the `some` scan). */
  function HasEmail(s: seq<User>, email: string): (b: bool)
    ensures b <==> exists i :: 0 <= i < |s| && s[i].email == email
  {
    if s == [] then false
    else if s[0].email == email then true
    else
      var b := HasEmail(s[1..], email);
      assert b ==> exists i :: 0 <= i < |s| && s[i].email == email by {
        if b {
          var j :| 0 <= j < |s[1..]| && s[1..][j].email == email;
          assert s[j + 1].email == email;
        }
      }
      b
  }

  /** `s.filter(u => u.email !== email)`: every record whose email differs, in order. */
  function WithoutEmail(s: seq<User>, email: string): (r: seq<User>)
    ensures forall u :: u in r <==> u in s && u.email != email
    ensures |r| <= |s|
  {
    if s == [] then []
    else
      var rest := WithoutEmail(s[1..], email);
      assert s == [s[0]] + s[1..];
      if s[0].email != email then [s[0]] + rest else rest
  }

  /** Filtering keeps every record with another email as often as it occurs, and no record with `email`. */
  lemma {:induction false} WithoutEmailCounts(s: seq<User>, email: string, u: User)
    ensures multiset(WithoutEmail(s, email))[u] == if u.email == email then 0 else multiset(s)[u]
  {
    if s != [] {
      WithoutEmailCounts(s[1..], email, u);
      assert s == [s[0]] + s[1..];
    }
  }

  /** The number of records of `s` with email `email`. */
  function CountEmail(s: seq<User>, email: string): (n: nat)
    ensures n <= |s|
    ensures n == 0 <==> !HasEmail(s, email)
  {
    if s == [] then 0
    else (if s[0].email == email then 1 else 0) + CountEmail(s[1..], email)
  }

  /** `r` can be obtained from `s` by deleting elements, so the survivors keep their order. */
  ghost predicate IsSubsequence(r: seq<User>, s: seq<User>)
    decreases |s|
  {
    r == [] ||
    (s != [] &&
      ((r[0] == s[0] && IsSubsequence(r[1..], s[1..])) || IsSubsequence(r, s[1..])))
  }

  /** Filtering only deletes: what remains keeps its relative order. */
  lemma {:induction false} WithoutEmailIsSubsequence(s: seq<User>, email: string)
    ensures IsSubsequence(WithoutEmail(s, email), s)
  {
    if s != [] {
      WithoutEmailIsSubsequence(s[1..], email);
      var r := WithoutEmail(s, email);
      if s[0].email != email {
        assert r[0] == s[0] && r[1..] == WithoutEmail(s[1..], email);
      }
    }
  }

  /** Filtering distributes over appending one record: earlier records keep their place. */
  lemma {:induction false} WithoutEmailAppend(s: seq<User>, u: User, email: string)
    ensures WithoutEmail(s + [u], email) ==
            WithoutEmail(s, email) + (if u.email == email then [] else [u])
  {
    if s == [] {
      assert s + [u] == [u];
    } else {
      assert (s + [u])[0] == s[0];
      assert (s + [u])[1..] == s[1..] + [u];
      WithoutEmailAppend(s[1..], u, email);
    }
  }

  /** Filtering changes nothing exactly when no record has the email. */
  lemma {:induction false} WithoutEmailUnchanged(s: seq<User>, email: string)
    ensures WithoutEmail(s, email) == s <==> !HasEmail(s, email)
  {
    if s != [] {
      WithoutEmailUnchanged(s[1..], email);
      if s[0].email == email {
        assert s[0] in s;
      }
    }
  }

  /** Filtering twice by the same email is filtering once. */
  lemma WithoutEmailIdempotent(s: seq<User>, email: string)
    ensures WithoutEmail(WithoutEmail(s, email), email) == WithoutEmail(s, email)
  {
    WithoutEmailUnchanged(WithoutEmail(s, email), email);
  }

  /** Appending one record adds one to the count of its email and nothing to any other. */
  lemma {:induction false} CountEmailAppend(s: seq<User>, u: User, email: string)
    ensures CountEmail(s + [u], email) == CountEmail(s, email) + (if u.email == email then 1 else 0)
  {
    if s == [] {
      assert s + [u] == [u];
    } else {
      assert (s + [u])[1..] == s[1..] + [u];
      CountEmailAppend(s[1..], u, email);
    }
  }

  /** Appending `u` and then filtering by `u`'s email restores a list that had no such email. */
  lemma AppendThenRemoveRestores(s: seq<User>, u: User)
    requires !HasEmail(s, u.email)
    ensures WithoutEmail(s + [u], u.email) == s
  {
    WithoutEmailAppend(s, u, u.email);
    WithoutEmailUnchanged(s, u.email);
  }

  /** Removing an email and then appending a record with it leaves exactly one record with that email. */
  lemma RemoveThenAppendLeavesOne(s: seq<User>, u: User)
    ensures CountEmail(WithoutEmail(s, u.email) + [u], u.email) == 1
  {
    CountEmailAppend(WithoutEmail(s, u.email), u, u.email);
  }
}
