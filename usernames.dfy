/** The unique-username search that both the Google sign-in callback and the
    signup route run: try `base`, then `base1`, `base2`, … until no user
    holds the name. */
module Usernames {
  import opened Text
  import opened Wrappers
  import opened Store

  /** The name tried on the `k`-th pass: `base` itself, then `base` followed
      by the decimal digits of `k`. */
  function Candidate(base: string, k: nat): (r: string)
    ensures |r| >= |base| && r[..|base|] == base
    ensures k == 0 <==> |r| == |base|
    ensures k > 0 ==> AllDigits(r[|base|..])
  {
    if k == 0 then base else base + NatToString(k)
  }

  /** Different passes try different names. */
  lemma CandidateInjective(base: string, j: nat, k: nat)
    requires Candidate(base, j) == Candidate(base, k)
    ensures j == k
  {
    if j > 0 && k > 0 {
      assert NatToString(j) == Candidate(base, j)[|base|..];
      assert NatToString(k) == Candidate(base, k)[|base|..];
      NatToStringInjective(j, k);
    }
  }

  /** Pass `k` is the one the loop stops at: its name is free and the names
      of all earlier passes are held by some user. */
  predicate FirstFree(users: seq<User>, base: string, k: nat) {
    !UsernameTaken(users, Candidate(base, k)) &&
    forall j :: 0 <= j < k ==> UsernameTaken(users, Candidate(base, j))
  }

  /** At most one pass is the first free one. */
  lemma FirstFreeUnique(users: seq<User>, base: string, j: nat, k: nat)
    requires FirstFree(users, base, j) && FirstFree(users, base, k)
    ensures j == k
  {
  }

  /** The usernames held by the users. */
  function HeldNames(users: seq<User>): set<string> {
    set i | 0 <= i < |users| && users[i].username.Some? :: users[i].username.value
  }

  lemma {:induction false} HeldNamesBound(users: seq<User>)
    ensures |HeldNames(users)| <= |users|
  {
    if users != [] {
      HeldNamesBound(users[1..]);
      var head: set<string> := if users[0].username.Some? then {users[0].username.value} else {};
      forall x | x in HeldNames(users) ensures x in HeldNames(users[1..]) + head {
        var i :| 0 <= i < |users| && users[i].username.Some? && users[i].username.value == x;
        if i > 0 {
          assert users[1..][i - 1] == users[i];
        }
      }
      assert HeldNames(users) <= HeldNames(users[1..]) + head;
      SubsetBound(HeldNames(users), HeldNames(users[1..]) + head);
    }
  }

  lemma SubsetBound<T>(a: set<T>, b: set<T>)
    requires a <= b
    ensures |a| <= |b|
  {
    assert b == a + (b - a);
  }

  /** The names of the first `m` passes. */
  function Candidates(base: string, m: nat): set<string> {
    set j: nat | j < m :: Candidate(base, j)
  }

  lemma {:induction false} CandidatesSize(base: string, m: nat)
    ensures |Candidates(base, m)| == m
  {
    if m > 0 {
      CandidatesSize(base, m - 1);
      assert Candidates(base, m) == Candidates(base, m - 1) + {Candidate(base, m - 1)};
      if Candidate(base, m - 1) in Candidates(base, m - 1) {
        var j: nat :| j < m - 1 && Candidate(base, j) == Candidate(base, m - 1);
        CandidateInjective(base, j, m - 1);
      }
    }
  }

  /** If the names of the first `m` passes are all held, there are at least
      `m` users: the search ends by pass `|users|`. */
  lemma TakenBound(users: seq<User>, base: string, m: nat)
    requires forall j :: 0 <= j < m ==> UsernameTaken(users, Candidate(base, j))
    ensures m <= |users|
  {
    forall x | x in Candidates(base, m) ensures x in HeldNames(users) {
      var j: nat :| j < m && Candidate(base, j) == x;
      assert UsernameTaken(users, Candidate(base, j));
      var i :| 0 <= i < |users| && users[i].username == Some(x);
    }
    CandidatesSize(base, m);
    HeldNamesBound(users);
    SubsetBound(Candidates(base, m), HeldNames(users));
  }

  /** The search loop: `username = base; count = 1; while (findOne({ username }))
      { username = base + count; count++ }`. */
  method FreeUsername(users: seq<User>, base: string) returns (username: string)
    ensures !UsernameTaken(users, username)
    ensures exists k :: 0 <= k <= |users| && username == Candidate(base, k) && FirstFree(users, base, k)
  {
    username := base;
    var count := 1;
    while UsernameTaken(users, username)
      invariant 1 <= count <= |users| + 1
      invariant username == Candidate(base, count - 1)
      invariant forall j :: 0 <= j < count - 1 ==> UsernameTaken(users, Candidate(base, j))
      decreases |users| + 1 - count
    {
      TakenBound(users, base, count);
      username := base + NatToString(count);
      count := count + 1;
    }
    assert FirstFree(users, base, count - 1);
  }
}
