/**
 * The review store of projects/reviews.py. A review belongs to a project and
 * (until its profile is deleted) to an owner; the table allows one review per
 * (project, owner) pair. Each project's vote_total is kept by two database
 * triggers (base/database.py): +1 after every inserted review row and -1
 * after every deleted one, so it equals the project's number of reviews.
 *
 * After each change the handlers call update_votes (projects/utils.py),
 * which looks the project up again (404 when it is gone) and divides by
 * vote_total; that division fails when the last review of a project has
 * just been deleted. The model keeps the two failure outcomes and leaves
 * the floating-point ratio out.
 */
module Reviews {
  import opened Common
  import Pagination

  type ReviewId = nat
  type ProjectId = nat
  type ProfileId = nat

  datatype Vote = Up | Down

  datatype Review = Review(id: ReviewId, body: Option<string>, value: Vote,
                           owner: Option<ProfileId>, project: ProjectId)

  /** The reviews table in storage order, and vote_total of every stored project. */
  datatype Db = Db(reviews: seq<Review>, voteTotal: map<ProjectId, int>)

  datatype Outcome<T> = Outcome(result: Result<T>, after: Db)

  const AlreadyReviewed := "User has already reviewed this project."
  const ReviewNotFound := "Could not find the review!"
  const ProjectNotFound := "Could not find the project!"
  const CommitFailed := "An error occurred while committing to the database"
  /** The detail of an error the handler does not catch (the server answers 500). */
  const Uncaught := "Internal Server Error"

  /** The number of reviews of project `p`. */
  function CountFor(rs: seq<Review>, p: ProjectId): (n: nat)
    ensures n <= |rs|
    ensures n == 0 <==> forall i :: 0 <= i < |rs| ==> rs[i].project != p
  {
    if |rs| == 0 then 0
    else (if rs[0].project == p then 1 else 0) + CountFor(rs[1..], p)
  }

  lemma {:induction false} CountForAppend(a: seq<Review>, b: seq<Review>, p: ProjectId)
    ensures CountFor(a + b, p) == CountFor(a, p) + CountFor(b, p)
  {
    if |a| == 0 {
      assert a + b == b;
    } else {
      assert (a + b)[0] == a[0];
      assert (a + b)[1..] == a[1..] + b;
      CountForAppend(a[1..], b, p);
    }
  }

  /** The count splits around any position. */
  lemma CountForSplit(rs: seq<Review>, i: nat, p: ProjectId)
    requires i < |rs|
    ensures CountFor(rs, p) == CountFor(rs[..i], p) + (if rs[i].project == p then 1 else 0) + CountFor(rs[i + 1..], p)
  {
    assert rs == rs[..i] + ([rs[i]] + rs[i + 1..]);
    CountForAppend(rs[..i], [rs[i]] + rs[i + 1..], p);
    CountForAppend([rs[i]], rs[i + 1..], p);
  }

  /** Removing the row at `i` lowers the count of its own project by one and no other. */
  lemma CountForRemove(rs: seq<Review>, i: nat, p: ProjectId)
    requires i < |rs|
    ensures CountFor(rs[..i] + rs[i + 1..], p) == CountFor(rs, p) - (if rs[i].project == p then 1 else 0)
  {
    CountForSplit(rs, i, p);
    CountForAppend(rs[..i], rs[i + 1..], p);
  }

  /** Overwriting a row with one of the same project changes no count. */
  lemma CountForReplace(rs: seq<Review>, i: nat, x: Review, p: ProjectId)
    requires i < |rs| && x.project == rs[i].project
    ensures CountFor(rs[i := x], p) == CountFor(rs, p)
  {
    CountForSplit(rs, i, p);
    CountForSplit(rs[i := x], i, p);
    assert rs[i := x][..i] == rs[..i];
    assert rs[i := x][i + 1..] == rs[i + 1..];
  }

  /** The reviews of project `p`, in storage order. */
  function Of(rs: seq<Review>, p: ProjectId): (r: seq<Review>)
    ensures |r| == CountFor(rs, p)
  {
    if |rs| == 0 then []
    else if rs[0].project == p then [rs[0]] + Of(rs[1..], p)
    else Of(rs[1..], p)
  }

  /** The project's reviews are exactly the stored reviews of that project. */
  lemma {:induction false} OfMembers(rs: seq<Review>, p: ProjectId)
    ensures forall x :: x in Of(rs, p) <==> x in rs && x.project == p
  {
    if |rs| > 0 {
      OfMembers(rs[1..], p);
      assert rs == [rs[0]] + rs[1..];
    }
  }

  /** The trigger's change to vote_total: rows of a project that is not stored change nothing. */
  function Bump(voteTotal: map<ProjectId, int>, p: ProjectId, d: int): (r: map<ProjectId, int>)
    ensures r.Keys == voteTotal.Keys
    ensures forall q :: q in r && q != p ==> r[q] == voteTotal[q]
    ensures p in r ==> r[p] == voteTotal[p] + d
  {
    if p in voteTotal then voteTotal[p := voteTotal[p] + d] else voteTotal
  }

  /**
   * Review ids are keys, one review per (project, owner) while the owner is
   * set (SQL treats missing owners as distinct), and every stored project's
   * vote_total is its number of reviews.
   */
  ghost predicate Valid(db: Db)
  {
    Keyed(db.reviews) &&
    (forall p :: p in db.voteTotal ==> db.voteTotal[p] == CountFor(db.reviews, p))
  }

  /** The primary key and the (project, owner) unique constraint of the reviews table. */
  ghost predicate Keyed(rs: seq<Review>)
  {
    (forall i, j :: 0 <= i < j < |rs| ==> rs[i].id != rs[j].id) &&
    (forall i, j :: 0 <= i < j < |rs| && rs[i].owner.Some? ==>
       rs[i].project != rs[j].project || rs[i].owner != rs[j].owner)
  }

  /** Deleting a row keeps both keys. */
  lemma RemoveKeyed(rs: seq<Review>, i: nat)
    requires i < |rs| && Keyed(rs)
    ensures Keyed(rs[..i] + rs[i + 1..])
  {
    var removed := rs[..i] + rs[i + 1..];
    assert forall a :: 0 <= a < |removed| ==> removed[a] == rs[if a < i then a else a + 1];
  }

  /** Whether `user` has a review of `project`. */
  predicate HasReviewed(rs: seq<Review>, project: ProjectId, user: ProfileId)
  {
    exists i :: 0 <= i < |rs| && rs[i].project == project && rs[i].owner == Some(user)
  }

  predicate IdInUse(rs: seq<Review>, id: ReviewId)
  {
    exists i :: 0 <= i < |rs| && rs[i].id == id
  }

  /** get_my_review: the position of review `id` if `user` owns it. */
  function FindMine(rs: seq<Review>, id: ReviewId, user: ProfileId): (r: Option<nat>)
    ensures r.None? <==> forall i :: 0 <= i < |rs| ==> !(rs[i].id == id && rs[i].owner == Some(user))
    ensures r.Some? ==> r.value < |rs| && rs[r.value].id == id && rs[r.value].owner == Some(user)
  {
    if |rs| == 0 then None
    else if rs[0].id == id && rs[0].owner == Some(user) then Some(0)
    else match FindMine(rs[1..], id, user)
      case None => None
      case Some(k) => Some(k + 1)
  }

  /** update_votes: the project must still exist, and its vote_total is a divisor. */
  function UpdateVotes(db: Db, p: ProjectId): (r: Result<()>)
    ensures r.Ok? <==> p in db.voteTotal && db.voteTotal[p] != 0
  {
    if p !in db.voteTotal then Err(Failure(NotFound, ProjectNotFound))
    else if db.voteTotal[p] == 0 then Err(Failure(InternalError, Uncaught))
    else Ok(())
  }

  /** create_review, with `newId` the generated key of the new row. */
  function Created(db: Db, project: ProjectId, user: ProfileId, body: Option<string>, value: Vote,
                   newId: ReviewId): Outcome<Review>
  {
    if HasReviewed(db.reviews, project, user) then Outcome(Err(Failure(BadRequest, AlreadyReviewed)), db)
    else if IdInUse(db.reviews, newId) then Outcome(Err(Failure(InternalError, CommitFailed)), db)
    else
      var r := Review(newId, body, value, Some(user), project);
      var after := Db(db.reviews + [r], Bump(db.voteTotal, project, 1));
      match UpdateVotes(after, project)
      case Ok(_) => Outcome(Ok(r), after)
      case Err(f) => Outcome(Err(f), after)
  }

  /** get_my_review. */
  function MyReview(db: Db, id: ReviewId, user: ProfileId): Result<Review>
  {
    match FindMine(db.reviews, id, user)
    case None => Err(Failure(NotFound, ReviewNotFound))
    case Some(i) => Ok(db.reviews[i])
  }

  /** update_review: overwrite body and value of the caller's review. */
  function Updated(db: Db, id: ReviewId, user: ProfileId, body: Option<string>, value: Vote): Outcome<()>
  {
    match FindMine(db.reviews, id, user)
    case None => Outcome(Err(Failure(NotFound, ReviewNotFound)), db)
    case Some(i) =>
      var after := db.(reviews := db.reviews[i := db.reviews[i].(body := body, value := value)]);
      Outcome(UpdateVotes(after, db.reviews[i].project), after)
  }

  /** delete_review: the row goes (and the trigger fires) before update_votes runs. */
  function Deleted(db: Db, id: ReviewId, user: ProfileId): Outcome<()>
  {
    match FindMine(db.reviews, id, user)
    case None => Outcome(Err(Failure(NotFound, ReviewNotFound)), db)
    case Some(i) =>
      var p := db.reviews[i].project;
      var after := Db(db.reviews[..i] + db.reviews[i + 1..], Bump(db.voteTotal, p, -1));
      Outcome(UpdateVotes(after, p), after)
  }

  /** Where page `page` of `size` rows starts: after the `size` rows of each earlier page. */
  function PageStart(page: int, size: int): (start: nat)
    requires page >= 1 && size >= 1
  {
    if page == 1 then 0 else PageStart(page - 1, size) + size
  }

  /** The offset of page `page` is (page-1)*size. */
  lemma {:induction false} PageStartOffset(page: int, size: int)
    requires page >= 1 && size >= 1
    ensures PageStart(page, size) == (page - 1) * size
  {
    if page > 1 {
      PageStartOffset(page - 1, size);
    }
  }

  /** At most `size` rows of `all` from `start` on. */
  function Window(all: seq<Review>, start: nat, size: nat): (r: seq<Review>)
    requires size >= 1
    ensures |r| <= size
    ensures start < |all| <==> |r| > 0
    ensures |r| > 0 ==> start + |r| <= |all| && (|r| == size || start + |r| == |all|)
    ensures forall j :: 0 <= j < |r| ==> start + j < |all| && r[j] == all[start + j]
  {
    if start >= |all| then []
    else if start + size <= |all| then all[start..start + size]
    else all[start..]
  }

  /** get_Project_reviews: `size` reviews of the project from offset (page-1)*size. */
  function ProjectReviews(db: Db, project: ProjectId, page: int, size: int): (r: seq<Review>)
    requires page >= 1 && size >= 1
    ensures |r| <= size
    ensures r != [] ==> PageStart(page, size) + |r| <= CountFor(db.reviews, project)
    ensures r != [] ==> |r| == size || PageStart(page, size) + |r| == CountFor(db.reviews, project)
    ensures forall j :: 0 <= j < |r| ==> r[j] == Of(db.reviews, project)[PageStart(page, size) + j]
  {
    var all := Of(db.reviews, project);
    Window(all, PageStart(page, size), size)
  }

  /** The vote counter the triggers keep is the project's number of reviews. */
  lemma VoteTotalIsCount(db: Db, p: ProjectId)
    requires Valid(db) && p in db.voteTotal
    ensures db.voteTotal[p] == |Of(db.reviews, p)|
  {
  }

  /** A second review of the same project by the same user is refused and nothing changes. */
  lemma CreateRejectsSecond(db: Db, project: ProjectId, user: ProfileId, body: Option<string>, value: Vote,
                            newId: ReviewId)
    requires HasReviewed(db.reviews, project, user)
    ensures Created(db, project, user, body, value, newId) ==
            Outcome(Err(Failure(BadRequest, AlreadyReviewed)), db)
  {
  }

  /**
   * create_review keeps the store valid: the new row's trigger raises its
   * project's counter by one, and the caller now has exactly that review of
   * the project. For a stored project it succeeds.
   */
  lemma CreatedValid(db: Db, project: ProjectId, user: ProfileId, body: Option<string>, value: Vote,
                     newId: ReviewId)
    requires Valid(db)
    ensures var o := Created(db, project, user, body, value, newId);
            Valid(o.after) &&
            ((project in db.voteTotal && !HasReviewed(db.reviews, project, user) &&
              !IdInUse(db.reviews, newId)) ==> o.result.Ok?) &&
            (o.after != db ==> |o.after.reviews| == |db.reviews| + 1 &&
                               CountFor(o.after.reviews, project) == CountFor(db.reviews, project) + 1 &&
                               o.after.reviews[|db.reviews|] == Review(newId, body, value, Some(user), project))
  {
    var o := Created(db, project, user, body, value, newId);
    if !HasReviewed(db.reviews, project, user) && !IdInUse(db.reviews, newId) {
      var r := Review(newId, body, value, Some(user), project);
      var rs := db.reviews + [r];
      forall q ensures CountFor(rs, q) == CountFor(db.reviews, q) + (if q == project then 1 else 0) {
        CountForAppend(db.reviews, [r], q);
      }
      forall i, j | 0 <= i < j < |rs| ensures rs[i].id != rs[j].id {
        if j == |db.reviews| {
          assert rs[i] == db.reviews[i];
        }
      }
      forall i, j | 0 <= i < j < |rs| && rs[i].owner.Some?
        ensures rs[i].project != rs[j].project || rs[i].owner != rs[j].owner
      {
        if j == |db.reviews| {
          assert rs[i] == db.reviews[i];
        }
      }
    }
  }

  /** get_my_review fails with 404 exactly when the caller owns no review with that id. */
  lemma MyReviewSpec(db: Db, id: ReviewId, user: ProfileId)
    ensures MyReview(db, id, user).Err? <==>
            forall i :: 0 <= i < |db.reviews| ==> !(db.reviews[i].id == id && db.reviews[i].owner == Some(user))
    ensures MyReview(db, id, user).Ok? ==>
            MyReview(db, id, user).value in db.reviews &&
            MyReview(db, id, user).value.id == id && MyReview(db, id, user).value.owner == Some(user)
  {
  }

  /**
   * update_review changes only body and value of the caller's review: ids,
   * projects, owners, every other review and every counter stay, and the
   * store stays valid. On a valid store it succeeds once the review is found.
   */
  lemma UpdatedEffect(db: Db, id: ReviewId, user: ProfileId, body: Option<string>, value: Vote)
    requires Valid(db) && FindMine(db.reviews, id, user).Some?
    ensures var o := Updated(db, id, user, body, value);
            var i := FindMine(db.reviews, id, user).value;
            Valid(o.after) && |o.after.reviews| == |db.reviews| && o.after.voteTotal == db.voteTotal &&
            o.after.reviews[i] == db.reviews[i].(body := body, value := value) &&
            (forall j :: 0 <= j < |db.reviews| && j != i ==> o.after.reviews[j] == db.reviews[j]) &&
            (db.reviews[i].project in db.voteTotal ==> o.result.Ok?)
  {
    var i := FindMine(db.reviews, id, user).value;
    var x := db.reviews[i].(body := body, value := value);
    forall q {
      CountForReplace(db.reviews, i, x, q);
    }
  }

  /**
   * delete_review removes exactly the caller's review, and nothing else, and
   * the trigger lowers the counter of its project by one.
   */
  lemma DeletedEffect(db: Db, id: ReviewId, user: ProfileId)
    requires Valid(db) && FindMine(db.reviews, id, user).Some?
    ensures var o := Deleted(db, id, user);
            var i := FindMine(db.reviews, id, user).value;
            o.after.reviews == db.reviews[..i] + db.reviews[i + 1..] &&
            (forall x :: x in o.after.reviews <==> x in db.reviews && x.id != id) &&
            CountFor(o.after.reviews, db.reviews[i].project) == CountFor(db.reviews, db.reviews[i].project) - 1 &&
            o.after.voteTotal == Bump(db.voteTotal, db.reviews[i].project, -1)
  {
    var i := FindMine(db.reviews, id, user).value;
    CountForRemove(db.reviews, i, db.reviews[i].project);
    RemoveAtMembers(db.reviews, i);
  }

  /** With unique ids, removing the row at `i` removes exactly the rows with its id. */
  lemma RemoveAtMembers(rs: seq<Review>, i: nat)
    requires i < |rs|
    requires Keyed(rs)
    ensures forall x :: x in rs[..i] + rs[i + 1..] <==> x in rs && x.id != rs[i].id
  {
    var removed := rs[..i] + rs[i + 1..];
    forall x | x in removed ensures x in rs && x.id != rs[i].id {
      var k :| 0 <= k < |removed| && removed[k] == x;
      var k' := if k < i then k else k + 1;
      assert removed[k] == rs[k'];
    }
    forall x | x in rs && x.id != rs[i].id ensures x in removed {
      var k :| 0 <= k < |rs| && rs[k] == x;
      var k' := if k < i then k else k - 1;
      assert removed[k'] == x;
    }
  }

  /** delete_review keeps the store valid: unique keys, one review per pair, counters equal to counts. */
  lemma DeletedValid(db: Db, id: ReviewId, user: ProfileId)
    requires Valid(db)
    ensures Valid(Deleted(db, id, user).after)
  {
    match FindMine(db.reviews, id, user)
    case None =>
    case Some(i) =>
      forall q {
        CountForRemove(db.reviews, i, q);
      }
      RemoveKeyed(db.reviews, i);
  }

  /**
   * Deleting the last review of a stored project removes it and lowers the
   * counter to zero, and then update_votes divides by that zero: the caller
   * gets 500 although the deletion is committed.
   */
  lemma DeleteLastReviewFails(db: Db, id: ReviewId, user: ProfileId)
    requires Valid(db) && FindMine(db.reviews, id, user).Some?
    requires var p := db.reviews[FindMine(db.reviews, id, user).value].project;
             p in db.voteTotal && CountFor(db.reviews, p) == 1
    ensures Deleted(db, id, user).result == Err(Failure(InternalError, Uncaught))
    ensures !IdInUse(Deleted(db, id, user).after.reviews, id)
  {
    DeletedEffect(db, id, user);
  }

  /** A page holds reviews exactly when it starts before the end: for pages 1..CeilDiv(count, size). */
  lemma PageNonEmptyIff(db: Db, project: ProjectId, page: int, size: int)
    requires page >= 1 && size >= 1
    ensures ProjectReviews(db, project, page, size) != [] <==>
            page <= Pagination.CeilDiv(CountFor(db.reviews, project), size)
  {
    var n := CountFor(db.reviews, project);
    var q := Pagination.CeilDiv(n, size);
    var r := ProjectReviews(db, project, page, size);
    var all := Of(db.reviews, project);
    assert r == Window(all, PageStart(page, size), size);
    PageStartOffset(page, size);
    if page <= q {
      Pagination.MulMonotone(page - 1, q - 1, size);
      assert PageStart(page, size) < |all|;
    } else {
      Pagination.MulMonotone(q, page - 1, size);
      assert PageStart(page, size) >= |all|;
    }
  }

  /**
   * A page is OFFSET (page-1)*size LIMIT size over the project's reviews: it
   * is empty exactly past the Paginator's last page, and only the page that
   * reaches the last review is short.
   */
  lemma ProjectReviewsPage(db: Db, project: ProjectId, page: int, size: int)
    requires page >= 1 && size >= 1
    ensures var r := ProjectReviews(db, project, page, size);
            var n := CountFor(db.reviews, project);
            var offset := (page - 1) * size;
            (r == [] <==> page > Pagination.CeilDiv(n, size)) &&
            (r != [] ==> offset + |r| <= n && (|r| == size || offset + |r| == n)) &&
            (forall j :: 0 <= j < |r| ==> r[j] == Of(db.reviews, project)[offset + j])
  {
    PageStartOffset(page, size);
    PageNonEmptyIff(db, project, page, size);
  }

  /** The first `k` pages, one after the other. */
  function FirstPages(db: Db, project: ProjectId, k: nat, size: int): seq<Review>
    requires size >= 1
  {
    if k == 0 then [] else FirstPages(db, project, k - 1, size) + ProjectReviews(db, project, k, size)
  }

  /** `n` cut at `len`. */
  function Clamp(n: nat, len: nat): (c: nat)
    ensures c <= len && c <= n && (c == n || c == len)
  {
    if n <= len then n else len
  }

  /** The rows before a window, then the window, are the rows before its end. */
  lemma WindowAppend(all: seq<Review>, start: nat, size: nat)
    requires size >= 1
    ensures all[..Clamp(start, |all|)] + Window(all, start, size) == all[..Clamp(start + size, |all|)]
  {
  }

  /**
   * Read one after another, the pages list the project's reviews in order,
   * none twice and none skipped: the first `k` pages are the reviews before
   * the start of page k+1.
   */
  lemma {:induction false} FirstPagesPrefix(db: Db, project: ProjectId, k: nat, size: int)
    requires size >= 1
    ensures var all := Of(db.reviews, project);
            FirstPages(db, project, k, size) == all[..Clamp(PageStart(k + 1, size), |all|)]
  {
    if k > 0 {
      FirstPagesPrefix(db, project, k - 1, size);
      WindowAppend(Of(db.reviews, project), PageStart(k, size), size);
    }
  }

  /** The review rows with their trigger-maintained counters. */
  class ReviewStore {
    var reviews: seq<Review>
    var voteTotal: map<ProjectId, int>

    function State(): Db
      reads this
    {
      Db(reviews, voteTotal)
    }

    /** Inserting a review row fires update_vote_total_after_insert. */
    method InsertRow(r: Review)
      modifies this
      ensures reviews == old(reviews) + [r]
      ensures voteTotal == Bump(old(voteTotal), r.project, 1)
    {
      reviews := reviews + [r];
      if r.project in voteTotal {
        voteTotal := voteTotal[r.project := voteTotal[r.project] + 1];
      }
    }

    /** Deleting the row at `i` fires update_vote_total_after_delete. */
    method DeleteRow(i: nat)
      requires i < |reviews|
      modifies this
      ensures reviews == old(reviews[..i] + reviews[i + 1..])
      ensures voteTotal == Bump(old(voteTotal), old(reviews[i].project), -1)
    {
      var p := reviews[i].project;
      reviews := reviews[..i] + reviews[i + 1..];
      if p in voteTotal {
        voteTotal := voteTotal[p := voteTotal[p] - 1];
      }
    }

    /** get_my_review: the caller's review with that id, or 404. */
    method GetMyReview(id: ReviewId, user: ProfileId) returns (r: Result<Review>)
      ensures r.Err? <==> forall i :: 0 <= i < |reviews| ==> !(reviews[i].id == id && reviews[i].owner == Some(user))
      ensures r.Err? ==> r == Err(Failure(NotFound, ReviewNotFound))
      ensures r.Ok? ==> r.value in reviews && r.value.id == id && r.value.owner == Some(user)
    {
      var i := FindMine(reviews, id, user);
      if i.None? {
        return Err(Failure(NotFound, ReviewNotFound));
      }
      r := Ok(reviews[i.value]);
    }

    /** create_review. */
    method CreateReview(project: ProjectId, user: ProfileId, body: Option<string>, value: Vote, newId: ReviewId)
      returns (r: Result<Review>)
      requires Valid(State())
      modifies this
      ensures Outcome(r, State()) == Created(old(State()), project, user, body, value, newId)
      ensures Valid(State())
    {
      CreatedValid(State(), project, user, body, value, newId);
      if HasReviewed(reviews, project, user) {
        return Err(Failure(BadRequest, AlreadyReviewed));
      }
      if IdInUse(reviews, newId) {
        return Err(Failure(InternalError, CommitFailed));
      }
      var review := Review(newId, body, value, Some(user), project);
      InsertRow(review);
      var votes := UpdateVotes(State(), project);
      if votes.Err? {
        return Err(votes.failure);
      }
      r := Ok(review);
    }

    /** update_review: the schema's two fields are set one after the other. */
    method UpdateReview(id: ReviewId, user: ProfileId, body: Option<string>, value: Vote) returns (r: Result<()>)
      requires Valid(State())
      modifies this
      ensures Outcome(r, State()) == Updated(old(State()), id, user, body, value)
      ensures Valid(State())
    {
      if FindMine(reviews, id, user).Some? {
        UpdatedEffect(State(), id, user, body, value);
      }
      var i := FindMine(reviews, id, user);
      if i.None? {
        return Err(Failure(NotFound, ReviewNotFound));
      }
      var k := i.value;
      reviews := reviews[k := reviews[k].(body := body)];
      reviews := reviews[k := reviews[k].(value := value)];
      r := UpdateVotes(State(), reviews[k].project);
    }

    /** delete_review. */
    method DeleteReview(id: ReviewId, user: ProfileId) returns (r: Result<()>)
      requires Valid(State())
      modifies this
      ensures Outcome(r, State()) == Deleted(old(State()), id, user)
      ensures Valid(State())
    {
      DeletedValid(State(), id, user);
      var i := FindMine(reviews, id, user);
      if i.None? {
        return Err(Failure(NotFound, ReviewNotFound));
      }
      var p := reviews[i.value].project;
      DeleteRow(i.value);
      r := UpdateVotes(State(), p);
    }

    /**
     * get_Project_reviews: OFFSET (page-1)*size LIMIT size over the project's
     * reviews. The page is empty exactly past the Paginator's last page, and
     * only the last non-empty page is short.
     */
    method GetProjectReviews(project: ProjectId, page: int, size: int) returns (r: seq<Review>)
      requires page >= 1 && size >= 1
      ensures |r| <= size
      ensures r == [] <==> page > Pagination.CeilDiv(CountFor(reviews, project), size)
      ensures r != [] ==> (page - 1) * size + |r| <= CountFor(reviews, project) &&
                          (|r| == size || (page - 1) * size + |r| == CountFor(reviews, project))
      ensures forall j :: 0 <= j < |r| ==> r[j] == Of(reviews, project)[(page - 1) * size + j]
    {
      r := ProjectReviews(State(), project, page, size);
      ProjectReviewsPage(State(), project, page, size);
    }
  }
}
