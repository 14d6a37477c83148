/** Upvotes and comments of a post: the middles of the two retry loops, and what any interleaving
    of them leaves in the store. */
module PostService {
  import opened Collections
  import opened Functions
  import opened OptimisticUpdate

  // ----- Upvotes

  function Without(users: seq<string>, user: string): seq<string> {
    if users == [] then []
    else if users[0] == user then Without(users[1..], user)
    else [users[0]] + Without(users[1..], user)
  }

  /** A second upvote takes the first one back. */
  function Toggled(users: seq<string>, user: string): seq<string> {
    if user in users then Without(users, user) else users + [user]
  }

  lemma NothingWithout(user: string)
    ensures Without([], user) == []
  {
  }

  lemma WithoutNext(users: seq<string>, user: string, i: nat, kept: seq<string>)
    requires i < |users| && kept + Without(users[i..], user) == Without(users, user)
    ensures (if users[i] == user then kept else kept + [users[i]]) + Without(users[i + 1..], user) == Without(users, user)
  {
    assert users[i..][0] == users[i] && users[i..][1..] == users[i + 1..];
    if users[i] != user {
      assert kept + ([users[i]] + Without(users[i + 1..], user)) == kept + [users[i]] + Without(users[i + 1..], user);
    }
  }

  lemma {:induction false} WithoutAbsent(users: seq<string>, user: string)
    requires user !in users
    ensures Without(users, user) == users
  {
    if users != [] {
      WithoutAbsent(users[1..], user);
    }
  }

  lemma {:induction false} WithoutConcat(a: seq<string>, b: seq<string>, user: string)
    ensures Without(a + b, user) == Without(a, user) + Without(b, user)
  {
    if a == [] {
      assert a + b == b;
    } else {
      assert (a + b)[1..] == a[1..] + b;
      WithoutConcat(a[1..], b, user);
    }
  }

  /** A first upvote goes last; taking it back leaves the others in their order. */
  lemma ToggleKeepsOrder(before: seq<string>, user: string, after: seq<string>)
    requires user !in before && user !in after
    ensures Toggled(before, user) == before + [user]
    ensures Toggled(before + [user] + after, user) == before + after
    ensures Toggled(Toggled(before, user), user) == before
  {
    WithoutOne(user);
    hide Without;
    WithoutAbsent(before, user);
    WithoutAbsent(after, user);
    WithoutConcat(before + [user], after, user);
    WithoutConcat(before, [user], user);
    assert before + [] == before;
  }

  lemma WithoutOne(user: string)
    ensures Without([user], user) == []
  {
  }

  /** The imperative loop over the current upvoters. */
  method Toggle(users: seq<string>, user: string) returns (result: seq<string>)
    ensures result == Toggled(users, user)
  {
    hide Without;
    var found := false;
    var kept: seq<string> := [];
    for i := 0 to |users|
      invariant found <==> user in users[..i]
      invariant kept + Without(users[i..], user) == Without(users, user)
    {
      WithoutNext(users, user, i, kept);
      assert users[..i + 1] == users[..i] + [users[i]];
      if users[i] == user {
        found := true;
      } else {
        kept := kept + [users[i]];
      }
    }
    assert users[..|users|] == users && users[|users|..] == [];
    NothingWithout(user);
    if found {
      result := kept;
    } else {
      result := users + [user];
    }
  }

  function UpvoteUpdate(users: seq<string>, user: string): Option<seq<string>> {
    Some(Toggled(users, user))
  }

  const UPVOTES := Service(UpvoteUpdate, [])

  lemma {:induction false} WithoutIs(users: seq<string>, user: string)
    ensures forall u :: u in Without(users, user) <==> u in users && u != user
    ensures Distinct(users) ==> Distinct(Without(users, user))
  {
    if users != [] {
      WithoutIs(users[1..], user);
      assert users == [users[0]] + users[1..];
      assert Distinct(users) ==> users[0] !in users[1..] && Distinct(users[1..]);
    }
  }

  lemma ToggledIs(users: seq<string>, user: string)
    ensures user in Toggled(users, user) <==> user !in users
    ensures forall u | u != user :: u in Toggled(users, user) <==> u in users
    ensures Distinct(users) ==> Distinct(Toggled(users, user))
  {
    WithoutIs(users, user);
  }

  function Votes(log: seq<Entry<string>>, user: string): nat {
    if log == [] then 0 else Votes(log[..|log| - 1], user) + if log[|log| - 1].op == user then 1 else 0
  }

  /** From the empty list a user is listed exactly after an odd number of toggles, and once. */
  lemma FoldToggles(log: seq<Entry<string>>)
    requires log != []
    ensures Fold(UPVOTES, [], log) == Toggled(Fold(UPVOTES, [], log[..|log| - 1]), log[|log| - 1].op)
  {
    hide Toggled;
  }

  lemma {:induction false} ToggleParity(log: seq<Entry<string>>, user: string)
    ensures user in Fold(UPVOTES, [], log) <==> Votes(log, user) % 2 == 1
    ensures Distinct(Fold(UPVOTES, [], log))
  {
    hide Toggled, Without;
    if log != [] {
      var front, last := log[..|log| - 1], log[|log| - 1];
      ToggleParity(front, user);
      hide Distinct;
      ToggledIs(Fold(UPVOTES, [], front), last.op);
      FoldToggles(log);
      hide Fold;
    }
  }

  /** After the post was saved with an empty upvoter list, every run of any number of clients leaves
      a user listed exactly when an odd number of that user's upvotes succeeded. */
  lemma UpvoteParity(etag: nat, clients: nat, steps: seq<Step<string>>, user: string)
    requires After(UPVOTES, Initial(Some(Cell([], etag)), clients), steps).Some?
    ensures var s := After(UPVOTES, Initial(Some(Cell([], etag)), clients), steps).value;
            && s.cell.Some? && Distinct(s.cell.value.value)
            && (user in s.cell.value.value <==> Votes(s.log, user) % 2 == 1)
            && forall c | 0 <= c < clients :: c < |s.done| && s.done[c] == Of(s.log, c)
  {
    hide Votes, Fold, Distinct, Of;
    NoLostUpdate(UPVOTES, Cell([], etag), clients, steps);
    ToggleParity(After(UPVOTES, Initial(Some(Cell([], etag)), clients), steps).value.log, user);
  }

  // ----- Comments

  function CommentUpdate<C>(comments: seq<C>, comment: C): Option<seq<C>> {
    Some(comments + [comment])
  }

  function Comments<C>(): Service<seq<C>, C> {
    Service(CommentUpdate, [])
  }

  lemma {:induction false} CommentsFold<C>(start: seq<C>, log: seq<Entry<C>>)
    ensures Fold(Comments(), start, log) == start + Ops(log)
  {
    if log == [] {
      assert start + [] == start;
    } else {
      var front, last := log[..|log| - 1], log[|log| - 1];
      CommentsFold(start, front);
      assert Fold(Comments(), start, log) == Fold(Comments(), start, front) + [last.op];
      assert start + (Ops(front) + [last.op]) == start + Ops(front) + [last.op];
    }
  }

  /** Every comment that was reported added is stored, once, in the order the saves took effect. */
  lemma CommentsAllKept<C>(etag: nat, clients: nat, steps: seq<Step<C>>)
    requires After(Comments<C>(), Initial(Some(Cell([], etag)), clients), steps).Some?
    ensures var s := After(Comments<C>(), Initial(Some(Cell([], etag)), clients), steps).value;
            && s.cell.Some? && s.cell.value.value == Ops(s.log)
            && forall c | 0 <= c < clients :: c < |s.done| && s.done[c] == Of(s.log, c)
  {
    hide Fold, Ops, Of;
    NoLostUpdate(Comments<C>(), Cell([], etag), clients, steps);
    var log := After(Comments<C>(), Initial(Some(Cell([], etag)), clients), steps).value.log;
    CommentsFold<C>([], log);
    assert [] + Ops(log) == Ops(log);
  }
}
