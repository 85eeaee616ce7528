/**
 * The tag association store of projects/tags.py and assign_tag of
 * render/utils.py: tags with names, projects with an optional owner, and the
 * project_tag rows linking them. The table has no key, so the same link can
 * be stored twice.
 *
 * Each handler is specified by a function from the tables before to the
 * result and the tables after; TagStore holds the tables and implements the
 * handlers step by step against those functions.
 */
module Tags {
  import opened Common

  type ProjectId = nat
  type TagId = nat
  type ProfileId = nat

  datatype Edge = Edge(project: ProjectId, tag: TagId)

  datatype Tables = Tables(
    owners: map<ProjectId, Option<ProfileId>>,
    tags: map<TagId, string>,
    edges: seq<Edge>)

  datatype Outcome<T> = Outcome(result: Result<T>, after: Tables)

  const ProjectNotFound := "Could not find the project!"
  const NotOwnerToAdd := "You're not authorized to add tags to this project!"
  const TagNotFound := "Tag not found!"
  const NotOwnerToDelete := "You're not authorized to delete tags from this project!"
  /** The detail of an error the handler does not catch (the server answers 500). */
  const Uncaught := "Internal Server Error"

  /** No two tags share a name, and every link names a stored project and a stored tag. */
  ghost predicate Valid(s: Tables)
  {
    (forall t, u :: t in s.tags && u in s.tags && s.tags[t] == s.tags[u] ==> t == u) &&
    (forall i :: 0 <= i < |s.edges| ==> s.edges[i].project in s.owners && s.edges[i].tag in s.tags)
  }

  /** The tag called `name`, if there is one (unique in a valid store). */
  ghost function FindTag(tags: map<TagId, string>, name: string): (r: Option<TagId>)
    ensures r.None? <==> forall t :: t in tags ==> tags[t] != name
    ensures r.Some? ==> r.value in tags && tags[r.value] == name
  {
    if exists t :: t in tags && tags[t] == name then
      var t :| t in tags && tags[t] == name; Some(t)
    else None
  }

  /** How many links the sequence holds to tag `t`. */
  function LinksTo(edges: seq<Edge>, t: TagId): (n: nat)
    ensures n <= |edges|
    ensures n == 0 <==> forall i :: 0 <= i < |edges| ==> edges[i].tag != t
  {
    if |edges| == 0 then 0
    else (if edges[0].tag == t then 1 else 0) + LinksTo(edges[1..], t)
  }

  /** How many copies of `e` the sequence holds. */
  function Copies(edges: seq<Edge>, e: Edge): (n: nat)
    ensures n == 0 <==> e !in edges
  {
    if |edges| == 0 then 0
    else (if edges[0] == e then 1 else 0) + Copies(edges[1..], e)
  }

  lemma {:induction false} CopiesAppend(a: seq<Edge>, b: seq<Edge>, e: Edge)
    ensures Copies(a + b, e) == Copies(a, e) + Copies(b, e)
  {
    if |a| == 0 {
      assert a + b == b;
    } else {
      assert (a + b)[0] == a[0];
      assert (a + b)[1..] == a[1..] + b;
      CopiesAppend(a[1..], b, e);
    }
  }

  /** The rows left after deleting every copy of `e`, in their order. */
  function Without(edges: seq<Edge>, e: Edge): (r: seq<Edge>)
    ensures forall x :: x in r <==> x in edges && x != e
    ensures |r| <= |edges|
  {
    if |edges| == 0 then []
    else if edges[0] == e then Without(edges[1..], e)
    else [edges[0]] + Without(edges[1..], e)
  }

  /** Deleting the copies of `e` keeps every other link exactly as often as before. */
  lemma {:induction false} WithoutCopies(edges: seq<Edge>, e: Edge, x: Edge)
    ensures Copies(Without(edges, e), x) == if x == e then 0 else Copies(edges, x)
  {
    if |edges| > 0 {
      WithoutCopies(edges[1..], e, x);
      if edges[0] != e {
        assert ([edges[0]] + Without(edges[1..], e))[1..] == Without(edges[1..], e);
      }
    }
  }

  /** The tags get_project_tags lists for `project`: those linked to it. */
  function ProjectTags(s: Tables, project: ProjectId): (r: set<TagId>)
    ensures forall t :: t in r <==> Edge(project, t) in s.edges
  {
    set i | 0 <= i < |s.edges| && s.edges[i].project == project :: s.edges[i].tag
  }

  /** The owner delete_tag finds through a link of `project` to `tag`. */
  function LinkedOwner(s: Tables, tag: TagId, project: ProjectId): Option<ProfileId>
  {
    if Edge(project, tag) in s.edges && project in s.owners then s.owners[project] else None
  }

  /** post_tag as written: printing the lookup result fails when no tag has the name. */
  ghost function Posted(s: Tables, name: string, project: ProjectId, user: ProfileId): Outcome<TagId>
  {
    if project !in s.owners then Outcome(Err(Failure(NotFound, ProjectNotFound)), s)
    else if s.owners[project] != Some(user) then Outcome(Err(Failure(Unauthorized, NotOwnerToAdd)), s)
    else match FindTag(s.tags, name)
      case None => Outcome(Err(Failure(InternalError, Uncaught)), s)
      case Some(t) => Outcome(Ok(t), s.(edges := s.edges + [Edge(project, t)]))
  }

  /**
   * post_tag as intended: a new name creates the tag, under the fresh key
   * `newId`, linked to the project.
   */
  ghost function PostedFixed(s: Tables, name: string, project: ProjectId, user: ProfileId, newId: TagId)
    : Outcome<TagId>
  {
    if project !in s.owners then Outcome(Err(Failure(NotFound, ProjectNotFound)), s)
    else if s.owners[project] != Some(user) then Outcome(Err(Failure(Unauthorized, NotOwnerToAdd)), s)
    else Assigned(s, name, project, newId)
  }

  /**
   * assign_tag: links the project to the tag called `name`, creating that tag
   * under `newId` when there is none. A key already in use fails the commit.
   */
  ghost function Assigned(s: Tables, name: string, project: ProjectId, newId: TagId): Outcome<TagId>
  {
    match FindTag(s.tags, name)
    case Some(t) => Outcome(Ok(t), s.(edges := s.edges + [Edge(project, t)]))
    case None =>
      if newId in s.tags then Outcome(Err(Failure(InternalError, Uncaught)), s)
      else Outcome(Ok(newId), s.(tags := s.tags[newId := name], edges := s.edges + [Edge(project, newId)]))
  }

  /**
   * delete_tag as written. After the links are deleted, the lookup of "another
   * link" accepts at most one row: with none the tag goes, with one it stays,
   * and with two or more the lookup raises and the uncommitted deletion is
   * rolled back.
   */
  function Deleted(s: Tables, tag: TagId, project: ProjectId, user: ProfileId): Outcome<()>
  {
    var owner := LinkedOwner(s, tag, project);
    if owner.None? then Outcome(Err(Failure(NotFound, TagNotFound)), s)
    else if owner.value != user then Outcome(Err(Failure(Unauthorized, NotOwnerToDelete)), s)
    else
      var rest := Without(s.edges, Edge(project, tag));
      var others := LinksTo(rest, tag);
      if others == 0 then Outcome(Ok(()), s.(tags := s.tags - {tag}, edges := rest))
      else if others == 1 then Outcome(Ok(()), s.(edges := rest))
      else Outcome(Err(Failure(InternalError, Uncaught)), s)
  }

  /** delete_tag as intended: the tag stays whenever another link to it remains. */
  function DeletedFixed(s: Tables, tag: TagId, project: ProjectId, user: ProfileId): Outcome<()>
  {
    var owner := LinkedOwner(s, tag, project);
    if owner.None? then Outcome(Err(Failure(NotFound, TagNotFound)), s)
    else if owner.value != user then Outcome(Err(Failure(Unauthorized, NotOwnerToDelete)), s)
    else
      var rest := Without(s.edges, Edge(project, tag));
      if LinksTo(rest, tag) == 0 then Outcome(Ok(()), s.(tags := s.tags - {tag}, edges := rest))
      else Outcome(Ok(()), s.(edges := rest))
  }

  /** A caller who does not own the project can neither add nor remove its tags, and nothing changes. */
  lemma OnlyOwnerEdits(s: Tables, name: string, tag: TagId, project: ProjectId, user: ProfileId, newId: TagId)
    requires project in s.owners && s.owners[project] != Some(user)
    ensures Posted(s, name, project, user) == Outcome(Err(Failure(Unauthorized, NotOwnerToAdd)), s)
    ensures PostedFixed(s, name, project, user, newId) == Outcome(Err(Failure(Unauthorized, NotOwnerToAdd)), s)
    ensures Deleted(s, tag, project, user).result.Err? && Deleted(s, tag, project, user).after == s
  {
  }

  /** Without a link, or for a project without an owner, delete_tag reports the tag as not found. */
  lemma DeleteTagNotFound(s: Tables, tag: TagId, project: ProjectId, user: ProfileId)
    requires Edge(project, tag) !in s.edges || (project in s.owners && s.owners[project].None?)
    ensures Deleted(s, tag, project, user) == Outcome(Err(Failure(NotFound, TagNotFound)), s)
  {
  }

  /**
   * Posting an existing name twice stores the link twice and creates no tag:
   * post_tag is not idempotent.
   */
  lemma PostTagTwice(s: Tables, name: string, project: ProjectId, user: ProfileId)
    requires project in s.owners && s.owners[project] == Some(user)
    requires FindTag(s.tags, name).Some?
    ensures var once := Posted(s, name, project, user);
            var twice := Posted(once.after, name, project, user);
            var t := FindTag(s.tags, name).value;
            once.result == Ok(t) && twice.result == Ok(t) &&
            twice.after.tags == s.tags &&
            Copies(twice.after.edges, Edge(project, t)) == Copies(s.edges, Edge(project, t)) + 2
  {
    var t := FindTag(s.tags, name).value;
    var once := Posted(s, name, project, user);
    assert once.after.tags == s.tags;
    CopiesAppend(s.edges, [Edge(project, t)], Edge(project, t));
    CopiesAppend(once.after.edges, [Edge(project, t)], Edge(project, t));
  }

  /**
   * Finding: as written, post_tag fails with 500 for every name not yet in
   * use, whoever the caller, so no tag can be created through it.
   */
  lemma PostTagNewNameFails(s: Tables, name: string, project: ProjectId, user: ProfileId)
    requires project in s.owners && s.owners[project] == Some(user)
    requires forall t :: t in s.tags ==> s.tags[t] != name
    ensures Posted(s, name, project, user) == Outcome(Err(Failure(InternalError, Uncaught)), s)
  {
  }

  /** As intended, the owner's post leaves the project tagged with a tag of that name. */
  lemma PostTagFixedTags(s: Tables, name: string, project: ProjectId, user: ProfileId, newId: TagId)
    requires project in s.owners && s.owners[project] == Some(user)
    requires newId !in s.tags
    ensures var o := PostedFixed(s, name, project, user, newId);
            o.result.Ok? && o.result.value in ProjectTags(o.after, project) &&
            o.result.value in o.after.tags && o.after.tags[o.result.value] == name
  {
    var o := PostedFixed(s, name, project, user, newId);
    assert o.after.edges[|o.after.edges| - 1] == Edge(project, o.result.value);
  }

  /** post_tag, as written and as intended, keeps names unique and every link pointing at stored rows. */
  lemma PostTagValid(s: Tables, name: string, project: ProjectId, user: ProfileId, newId: TagId)
    requires Valid(s)
    ensures Valid(Posted(s, name, project, user).after)
    ensures Valid(PostedFixed(s, name, project, user, newId).after)
  {
    var a := Posted(s, name, project, user).after;
    assert forall i :: 0 <= i < |s.edges| ==> a.edges[i] == s.edges[i];
    if project in s.owners {
      AssignTagValid(s, name, project, newId);
    }
  }

  /** assign_tag and the intended post_tag keep names unique and every link pointing at stored rows. */
  lemma AssignTagValid(s: Tables, name: string, project: ProjectId, newId: TagId)
    requires Valid(s) && project in s.owners
    ensures Valid(Assigned(s, name, project, newId).after)
  {
    var a := Assigned(s, name, project, newId).after;
    assert forall i :: 0 <= i < |s.edges| ==> a.edges[i] == s.edges[i];
  }

  /**
   * assign_tag with a name no tag has creates exactly one tag, under the
   * fresh key, links it to the project, and from then on the name finds it.
   */
  lemma AssignTagCreates(s: Tables, name: string, project: ProjectId, newId: TagId)
    requires FindTag(s.tags, name).None? && newId !in s.tags
    ensures var o := Assigned(s, name, project, newId);
            o.result == Ok(newId) && o.after.owners == s.owners &&
            o.after.tags.Keys == s.tags.Keys + {newId} &&
            (forall t :: t in s.tags ==> o.after.tags[t] == s.tags[t]) && o.after.tags[newId] == name &&
            o.after.edges == s.edges + [Edge(project, newId)] &&
            FindTag(o.after.tags, name) == Some(newId)
  {
  }

  /**
   * Assigning the same name twice stores the link twice and creates at most
   * one tag, on the first call: assign_tag is not idempotent. The second
   * call's fresh key is never used.
   */
  lemma AssignTagTwice(s: Tables, name: string, project: ProjectId, newId: TagId, nextId: TagId)
    requires FindTag(s.tags, name).Some? || newId !in s.tags
    ensures var once := Assigned(s, name, project, newId);
            var twice := Assigned(once.after, name, project, nextId);
            once.result.Ok? && twice.result == once.result &&
            twice.after.tags == once.after.tags &&
            Copies(twice.after.edges, Edge(project, once.result.value)) ==
              Copies(s.edges, Edge(project, once.result.value)) + 2
  {
    var once := Assigned(s, name, project, newId);
    var t := once.result.value;
    if FindTag(s.tags, name).None? {
      AssignTagCreates(s, name, project, newId);
    }
    assert FindTag(once.after.tags, name) == Some(t);
    CopiesAppend(s.edges, [Edge(project, t)], Edge(project, t));
    CopiesAppend(once.after.edges, [Edge(project, t)], Edge(project, t));
  }

  /**
   * delete_tag removes every link of the project to the tag and keeps every
   * other link exactly as often as before; the tag row goes only when no
   * link to it is left, and the store stays valid.
   */
  lemma DeleteTagEffect(s: Tables, tag: TagId, project: ProjectId, user: ProfileId)
    requires Valid(s) && Deleted(s, tag, project, user).result.Ok?
    ensures var a := Deleted(s, tag, project, user).after;
            Valid(a) && Edge(project, tag) !in a.edges &&
            (forall x :: x != Edge(project, tag) ==> Copies(a.edges, x) == Copies(s.edges, x)) &&
            (tag !in a.tags <==> forall i :: 0 <= i < |a.edges| ==> a.edges[i].tag != tag) &&
            (a.tags == s.tags || a.tags == s.tags - {tag}) && a.owners == s.owners
  {
    var a := Deleted(s, tag, project, user).after;
    forall x | x != Edge(project, tag) {
      WithoutCopies(s.edges, Edge(project, tag), x);
    }
    forall i | 0 <= i < |a.edges| ensures a.edges[i].project in a.owners && a.edges[i].tag in a.tags {
      assert a.edges[i] in s.edges;
    }
  }

  /**
   * Finding: as written, delete_tag fails with 500 and keeps the link when
   * two or more other links to the tag remain.
   */
  lemma DeleteTagManyOthersFails(s: Tables, tag: TagId, project: ProjectId, user: ProfileId)
    requires LinkedOwner(s, tag, project) == Some(user)
    requires LinksTo(Without(s.edges, Edge(project, tag)), tag) >= 2
    ensures Deleted(s, tag, project, user) == Outcome(Err(Failure(InternalError, Uncaught)), s)
    ensures Edge(project, tag) in Deleted(s, tag, project, user).after.edges
  {
  }

  /** A concrete store on which the as-written delete fails: a tag on three projects, all owned by 7. */
  lemma DeleteTagThreeProjects()
    ensures var s := Tables(map[1 := Some(7), 2 := Some(7), 3 := Some(7)], map[10 := "web"],
                            [Edge(1, 10), Edge(2, 10), Edge(3, 10)]);
            Deleted(s, 10, 1, 7).result.Err? && DeletedFixed(s, 10, 1, 7).result.Ok?
  {
    var s := Tables(map[1 := Some(7), 2 := Some(7), 3 := Some(7)], map[10 := "web"],
                    [Edge(1, 10), Edge(2, 10), Edge(3, 10)]);
    assert Without(s.edges, Edge(1, 10)) == [Edge(2, 10), Edge(3, 10)];
    assert LinksTo([Edge(2, 10), Edge(3, 10)], 10) == 2;
  }

  /**
   * As intended, an owner's delete always succeeds, unlinks the tag from the
   * project, keeps every other link exactly as often as before (so every
   * other project's tags are as they were), and keeps the store valid: the
   * tag goes exactly when nothing links to it any more, and no other tag or
   * project changes.
   */
  lemma DeleteTagFixedEffect(s: Tables, tag: TagId, project: ProjectId, user: ProfileId)
    requires Valid(s) && LinkedOwner(s, tag, project) == Some(user)
    ensures var o := DeletedFixed(s, tag, project, user);
            o.result.Ok? && Valid(o.after) &&
            tag !in ProjectTags(o.after, project) &&
            (forall x :: x != Edge(project, tag) ==> Copies(o.after.edges, x) == Copies(s.edges, x)) &&
            (forall q :: q != project ==> ProjectTags(o.after, q) == ProjectTags(s, q)) &&
            (tag !in o.after.tags <==> forall i :: 0 <= i < |o.after.edges| ==> o.after.edges[i].tag != tag) &&
            (o.after.tags == s.tags || o.after.tags == s.tags - {tag}) && o.after.owners == s.owners
  {
    var a := DeletedFixed(s, tag, project, user).after;
    forall x | x != Edge(project, tag) {
      WithoutCopies(s.edges, Edge(project, tag), x);
    }
    forall q | q != project ensures ProjectTags(a, q) == ProjectTags(s, q) {
      forall t ensures Edge(q, t) in a.edges <==> Edge(q, t) in s.edges {
      }
    }
    forall i | 0 <= i < |a.edges| ensures a.edges[i].project in a.owners && a.edges[i].tag in a.tags {
      assert a.edges[i] in s.edges;
    }
  }

  /** The store behind the tag handlers. */
  class TagStore {
    var owners: map<ProjectId, Option<ProfileId>>
    var tags: map<TagId, string>
    var edges: seq<Edge>

    function State(): Tables
      reads this
    {
      Tables(owners, tags, edges)
    }

    /** The tag called `name`: in a valid store the only one, if there is one. */
    method FindByName(name: string) returns (r: Option<TagId>)
      requires Valid(State())
      ensures r.None? <==> forall t :: t in tags ==> tags[t] != name
      ensures r.Some? ==> r.value in tags && tags[r.value] == name
      ensures r.Some? ==> forall t :: t in tags && tags[t] == name ==> t == r.value
    {
      if exists t :: t in tags && tags[t] == name {
        var t :| t in tags && tags[t] == name;
        r := Some(t);
      } else {
        r := None;
      }
    }

    /** get_project_tags. */
    method GetProjectTags(project: ProjectId) returns (r: set<TagId>)
      ensures forall t :: t in r <==> Edge(project, t) in edges
    {
      r := set i | 0 <= i < |edges| && edges[i].project == project :: edges[i].tag;
    }

    /** post_tag as written. */
    method PostTag(name: string, project: ProjectId, user: ProfileId) returns (r: Result<TagId>)
      requires Valid(State())
      modifies this
      ensures Outcome(r, State()) == Posted(old(State()), name, project, user)
      ensures Valid(State())
    {
      PostTagValid(State(), name, project, user, 0);
      if project !in owners {
        return Err(Failure(NotFound, ProjectNotFound));
      }
      if owners[project] != Some(user) {
        return Err(Failure(Unauthorized, NotOwnerToAdd));
      }
      var existing := FindByName(name);
      if existing.None? {
        return Err(Failure(InternalError, Uncaught));
      }
      edges := edges + [Edge(project, existing.value)];
      r := Ok(existing.value);
    }

    /** post_tag as intended: the owner's post goes through assign_tag. */
    method PostTagFixed(name: string, project: ProjectId, user: ProfileId, newId: TagId) returns (r: Result<TagId>)
      requires Valid(State())
      modifies this
      ensures Outcome(r, State()) == PostedFixed(old(State()), name, project, user, newId)
      ensures Valid(State())
    {
      if project !in owners {
        return Err(Failure(NotFound, ProjectNotFound));
      }
      if owners[project] != Some(user) {
        return Err(Failure(Unauthorized, NotOwnerToAdd));
      }
      r := AssignTag(name, project, newId);
    }

    /** assign_tag, which is handed a stored project. */
    method AssignTag(name: string, project: ProjectId, newId: TagId) returns (r: Result<TagId>)
      requires Valid(State()) && project in owners
      modifies this
      ensures Outcome(r, State()) == Assigned(old(State()), name, project, newId)
      ensures Valid(State())
    {
      AssignTagValid(State(), name, project, newId);
      var existing := FindByName(name);
      if existing.Some? {
        edges := edges + [Edge(project, existing.value)];
        return Ok(existing.value);
      }
      if newId in tags {
        return Err(Failure(InternalError, Uncaught));
      }
      tags := tags[newId := name];
      edges := edges + [Edge(project, newId)];
      r := Ok(newId);
    }

    /** delete_tag as written. */
    method DeleteTag(tag: TagId, project: ProjectId, user: ProfileId) returns (r: Result<()>)
      requires Valid(State())
      modifies this
      ensures Outcome(r, State()) == Deleted(old(State()), tag, project, user)
      ensures Valid(State())
    {
      if Deleted(State(), tag, project, user).result.Ok? {
        DeleteTagEffect(State(), tag, project, user);
      }
      var owner := LinkedOwner(State(), tag, project);
      if owner.None? {
        return Err(Failure(NotFound, TagNotFound));
      }
      if owner.value != user {
        return Err(Failure(Unauthorized, NotOwnerToDelete));
      }
      var rest := Without(edges, Edge(project, tag));
      var others := LinksTo(rest, tag);
      if others >= 2 {
        return Err(Failure(InternalError, Uncaught));
      }
      edges := rest;
      if others == 0 {
        tags := tags - {tag};
      }
      r := Ok(());
    }

    /** delete_tag as intended. */
    method DeleteTagFixed(tag: TagId, project: ProjectId, user: ProfileId) returns (r: Result<()>)
      requires Valid(State())
      modifies this
      ensures Outcome(r, State()) == DeletedFixed(old(State()), tag, project, user)
      ensures Valid(State())
    {
      if LinkedOwner(State(), tag, project) == Some(user) {
        DeleteTagFixedEffect(State(), tag, project, user);
      }
      var owner := LinkedOwner(State(), tag, project);
      if owner.None? {
        return Err(Failure(NotFound, TagNotFound));
      }
      if owner.value != user {
        return Err(Failure(Unauthorized, NotOwnerToDelete));
      }
      var rest := Without(edges, Edge(project, tag));
      edges := rest;
      if LinksTo(rest, tag) == 0 {
        tags := tags - {tag};
      }
      r := Ok(());
    }
  }
}
