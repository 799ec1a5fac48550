/** The comment thread of a listing: the best-effort batch that an update
    appends, and the cascade that a delete runs. */
module Comments {
  import opened Base
  import opened Records

  /** One element of an update's `comments` array. */
  datatype CommentEntry = CommentEntry(userId: TextField, text: TextField, createdAt: Option<Time>)

  /** An entry is kept when it has an author id and text, the id is well
      formed, and a user with that id exists. Every other entry is skipped
      without failing the update. */
  predicate Accepted(users: seq<User>, env: Env, e: CommentEntry) {
    && e.userId.Truthy()
    && e.text.Truthy()
    && env.isValidId(e.userId.s)
    && HasUser(users, e.userId.s)
  }

  /** The comment an accepted entry becomes; it is dated `now` unless the
      entry supplies a time. */
  function CommentFor(env: Env, listingId: Id, e: CommentEntry): Comment
    requires e.userId.Str? && e.text.Str?
  {
    Comment(e.text.s, if e.createdAt.Some? then e.createdAt.value else env.now, e.userId.s, listingId)
  }

  /** How many entries of a batch are accepted. */
  function AcceptedCount(users: seq<User>, env: Env, entries: seq<CommentEntry>): (n: nat)
    ensures n <= |entries|
  {
    if |entries| == 0 then 0
    else (if Accepted(users, env, entries[0]) then 1 else 0) + AcceptedCount(users, env, entries[1..])
  }

  /** Counting is additive over a split batch: whether an entry is accepted
      does not depend on the entries around it. */
  lemma {:induction false} AcceptedCountAppend(users: seq<User>, env: Env, a: seq<CommentEntry>, b: seq<CommentEntry>)
    ensures AcceptedCount(users, env, a + b) == AcceptedCount(users, env, a) + AcceptedCount(users, env, b)
  {
    if |a| == 0 {
      assert a + b == b;
    } else {
      assert (a + b)[0] == a[0];
      assert (a + b)[1..] == a[1..] + b;
      AcceptedCountAppend(users, env, a[1..], b);
    }
  }

  /** The comments a batch creates, in entry order. */
  function NewComments(users: seq<User>, env: Env, listingId: Id, entries: seq<CommentEntry>): (r: seq<Comment>)
    ensures |r| == AcceptedCount(users, env, entries)
    ensures forall c <- r :: exists i :: 0 <= i < |entries| && Accepted(users, env, entries[i])
                                         && c == CommentFor(env, listingId, entries[i])
    ensures forall i :: 0 <= i < |entries| && Accepted(users, env, entries[i])
                        ==> CommentFor(env, listingId, entries[i]) in r
    ensures r == [] <==> forall i :: 0 <= i < |entries| ==> !Accepted(users, env, entries[i])
  {
    if |entries| == 0 then []
    else
      var rest := NewComments(users, env, listingId, entries[1..]);
      assert forall i :: 1 <= i < |entries| ==> entries[i] == entries[1..][i - 1];
      if Accepted(users, env, entries[0]) then [CommentFor(env, listingId, entries[0])] + rest
      else rest
  }

  /** Splitting a batch splits its comments: the entries are processed one
      after the other, independently of each other. */
  lemma {:induction false} NewCommentsAppend(users: seq<User>, env: Env, listingId: Id, a: seq<CommentEntry>, b: seq<CommentEntry>)
    ensures NewComments(users, env, listingId, a + b)
            == NewComments(users, env, listingId, a) + NewComments(users, env, listingId, b)
  {
    if |a| == 0 {
      assert a + b == b;
    } else {
      assert (a + b)[0] == a[0];
      assert (a + b)[1..] == a[1..] + b;
      NewCommentsAppend(users, env, listingId, a[1..], b);
    }
  }

  /** One step of the handler's loop: an entry appends exactly its own comment
      when it is accepted, and nothing otherwise. Two identical accepted
      entries therefore create two comments. */
  lemma NewCommentsStep(users: seq<User>, env: Env, listingId: Id, done: seq<CommentEntry>, e: CommentEntry)
    ensures NewComments(users, env, listingId, done + [e])
            == NewComments(users, env, listingId, done)
               + (if Accepted(users, env, e) then [CommentFor(env, listingId, e)] else [])
  {
    NewCommentsAppend(users, env, listingId, done, [e]);
    assert [e][1..] == [];
  }

  /** Every comment a batch creates is well formed: bound to the listing, with
      text and an existing author. */
  lemma NewCommentsWellFormed(st: Store, env: Env, listingId: Id, entries: seq<CommentEntry>)
    requires listingId in st.listings
    ensures forall c <- NewComments(st.users, env, listingId, entries) ::
              WellFormedComment(st, c) && c.wasteListingId == listingId
  {
  }

  /** The multiplicities a cascade keeps: none on the listing, all elsewhere. */
  ghost predicate KeepsOthers(cs: seq<Comment>, id: Id, r: seq<Comment>) {
    forall c :: multiset(r)[c] == if c.wasteListingId == id then 0 else multiset(cs)[c]
  }

  lemma KeepsOthersStep(cs: seq<Comment>, id: Id, rest: seq<Comment>)
    requires |cs| > 0 && KeepsOthers(cs[1..], id, rest)
    ensures cs[0].wasteListingId == id ==> KeepsOthers(cs, id, rest)
    ensures cs[0].wasteListingId != id ==> KeepsOthers(cs, id, [cs[0]] + rest)
  {
    assert cs == [cs[0]] + cs[1..];
    assert multiset(cs) == multiset{cs[0]} + multiset(cs[1..]);
    assert multiset([cs[0]] + rest) == multiset{cs[0]} + multiset(rest);
  }

  /** `Comment.deleteMany({ wasteListingId: id })`. */
  function RemoveCommentsOf(cs: seq<Comment>, id: Id): (r: seq<Comment>)
    ensures |r| <= |cs|
    ensures KeepsOthers(cs, id, r)
    ensures forall c <- r :: c in cs && c.wasteListingId != id
    ensures forall c <- cs :: c.wasteListingId != id ==> c in r
    ensures (forall c <- cs :: c.wasteListingId != id) ==> r == cs
  {
    if |cs| == 0 then []
    else
      var rest := RemoveCommentsOf(cs[1..], id);
      KeepsOthersStep(cs, id, rest);
      assert forall c <- cs[1..] :: c in cs;
      assert cs == [cs[0]] + cs[1..];
      if cs[0].wasteListingId == id then rest else [cs[0]] + rest
  }
}
