/** The pure core of the action's `run()`: the ownership marker, the comment
    content, the bounded first-match search and the skip / update / create
    decision, with the remote API calls stripped away. */
module Upsert {
  import opened Wrappers
  import opened Text

  /** A comment as the host lists it: a numeric id and a body that may be absent. */
  datatype Comment = Comment(id: int, body: Option<string>)

  /** What one run decides to do to the pull request's comment list. */
  datatype Decision =
    | Skip
    | Update(commentId: int, content: string)
    | Create(issue: int, content: string)

  /** The number of comments requested from the host (`per_page`). */
  const PageSize: nat := 25

  const MarkerOpen: string := "<!-- comment-id:"
  const MarkerClose: string := " -->\n\n"

  /** The pull-request number is present and truthy: JavaScript treats
      `undefined` and `0` as false and every other integer as true. */
  function IsPullRequest(pr: Option<int>): (r: bool)
    ensures !r <==> pr == None || pr == Some(0)
  {
    pr.Some? && pr.value != 0
  }

  /** The ownership marker (the "preamble") for `id`. */
  function Preamble(id: string): (r: string)
    ensures |r| == |MarkerOpen| + |id| + |MarkerClose|
    ensures IsPrefix(MarkerOpen, r)
    ensures r[|MarkerOpen|..|MarkerOpen| + |id|] == id
    ensures r[|r| - |MarkerClose|..] == MarkerClose
  {
    MarkerOpen + id + MarkerClose
  }

  /** The comment body a run writes: the preamble, a blank line, the title,
      an empty line and then the body. */
  function Content(id: string, title: string, body: string): (r: string)
    ensures |r| == |Preamble(id)| + |title| + |body| + 3
    ensures IsPrefix(Preamble(id), r)
    ensures r[|Preamble(id)|] == '\n'
    ensures r[|Preamble(id)| + 1..|Preamble(id)| + 1 + |title|] == title
    ensures r[|Preamble(id)| + 1 + |title|..|r| - |body|] == "\n\n"
    ensures r[|r| - |body|..] == body
  {
    Preamble(id) + "\n" + title + "\n\n" + body
  }

  /** The reference notion of ownership: the body is present and the marker
      occurs in it (anywhere, not only at the start). */
  ghost predicate Owned(c: Comment, marker: string) {
    c.body.Some? && Contains(c.body.value, marker)
  }

  /** The test the search applies to each comment: `c.body?.includes(marker)`. */
  function Matches(c: Comment, marker: string): (r: bool)
    ensures r <==> Owned(c, marker)
  {
    match c.body
    case None => false
    case Some(text) => Includes(text, marker)
  }

  /** The comments the search inspects: the first `PageSize` in host order. */
  function Window(listed: seq<Comment>): (r: seq<Comment>)
    ensures |r| <= PageSize
    ensures |r| == if |listed| <= PageSize then |listed| else PageSize
    ensures r == listed[..|r|]
  {
    if |listed| <= PageSize then listed else listed[..PageSize]
  }

  /** Position `i` holds the first comment of `cs` owned through `marker`. */
  ghost predicate IsFirstOwned(cs: seq<Comment>, marker: string, i: int) {
    && 0 <= i < |cs|
    && Owned(cs[i], marker)
    && forall j :: 0 <= j < i ==> !Owned(cs[j], marker)
  }

  /** No comment of `cs` is owned through `marker`. */
  ghost predicate NoneOwned(cs: seq<Comment>, marker: string) {
    forall j :: 0 <= j < |cs| ==> !Owned(cs[j], marker)
  }

  /** The index of the first matching comment, scanning in order. */
  function FirstMatch(cs: seq<Comment>, marker: string): (r: Option<nat>)
    ensures r.Some? ==> IsFirstOwned(cs, marker, r.value)
    ensures r.None? ==> NoneOwned(cs, marker)
  {
    if |cs| == 0 then None
    else if Matches(cs[0], marker) then Some(0)
    else match FirstMatch(cs[1..], marker)
      case None => None
      case Some(k) => Some(k + 1)
  }

  /** `Array.prototype.find` over the inspected window. */
  function FindComment(listed: seq<Comment>, marker: string): (r: Option<Comment>)
    ensures r.None? <==> NoneOwned(Window(listed), marker)
    ensures r.Some? ==> exists i :: IsFirstOwned(Window(listed), marker, i) && r.value == listed[i]
  {
    match FirstMatch(Window(listed), marker)
    case None => None
    case Some(k) => Some(listed[k])
  }

  /** The decision `run()` makes from the pull-request number, the inputs
      and the comments the host listed. */
  function Decide(pr: Option<int>, id: string, title: string, body: string,
                  listed: seq<Comment>): (r: Decision)
    ensures r.Skip? <==> !IsPullRequest(pr)
    ensures r.Update? ==>
      exists i :: IsFirstOwned(Window(listed), Preamble(id), i)
                  && r == Update(listed[i].id, Content(id, title, body))
    ensures r.Create? ==>
      && IsPullRequest(pr)
      && NoneOwned(Window(listed), Preamble(id))
      && r == Create(pr.value, Content(id, title, body))
  {
    if !IsPullRequest(pr) then Skip
    else
      var content := Content(id, title, body);
      match FindComment(listed, Preamble(id))
      case Some(c) => Update(c.id, content)
      case None => Create(pr.value, content)
  }

  /** Only one position can be the first owned one. */
  lemma FirstOwnedIsUnique(cs: seq<Comment>, marker: string, i: int, k: int)
    requires IsFirstOwned(cs, marker, i) && IsFirstOwned(cs, marker, k)
    ensures i == k
  {
  }

  /** Every comment a run writes is owned through that run's marker, whatever
      the title and body, empty ones included. */
  lemma ContentIsOwned(cid: int, id: string, title: string, body: string)
    ensures Owned(Comment(cid, Some(Content(id, title, body))), Preamble(id))
  {
    PrefixIsContained(Preamble(id), Content(id, title, body));
  }

  /** With a pull request, the first owned comment in the window is updated
      with the new content. */
  lemma DecideUpdatesFirstOwned(pr: Option<int>, id: string, title: string, body: string,
                                listed: seq<Comment>, i: nat)
    requires IsPullRequest(pr)
    requires i < PageSize
    requires IsFirstOwned(listed, Preamble(id), i)
    ensures Decide(pr, id, title, body, listed) == Update(listed[i].id, Content(id, title, body))
  {
    var w := Window(listed);
    assert w[i] == listed[i];
    assert IsFirstOwned(w, Preamble(id), i);
    var r := Decide(pr, id, title, body, listed);
    assert r.Update?;
    var k :| IsFirstOwned(w, Preamble(id), k) && r == Update(listed[k].id, Content(id, title, body));
    FirstOwnedIsUnique(w, Preamble(id), i, k);
  }

  /** With a pull request and no owned comment among the first `PageSize`,
      a new comment is created on that pull request, even when an owned
      comment lies further down the list. */
  lemma DecideCreatesWhenWindowUnowned(pr: Option<int>, id: string, title: string, body: string,
                                       listed: seq<Comment>)
    requires IsPullRequest(pr)
    requires forall j :: 0 <= j < |listed| && j < PageSize ==> !Owned(listed[j], Preamble(id))
    ensures Decide(pr, id, title, body, listed) == Create(pr.value, Content(id, title, body))
  {
    var w := Window(listed);
    assert NoneOwned(w, Preamble(id)) by {
      forall j | 0 <= j < |w|
        ensures !Owned(w[j], Preamble(id))
      {
        assert w[j] == listed[j];
      }
    }
  }

  /** The concrete case of an owned comment just beyond the window: a
      26-comment list whose only owned comment is the last one. */
  lemma OwnedBeyondWindowIsMissed(pr: Option<int>, id: string, title: string, body: string,
                                  listed: seq<Comment>)
    requires IsPullRequest(pr)
    requires |listed| == PageSize + 1
    requires forall j :: 0 <= j < PageSize ==> listed[j].body.None?
    requires Owned(listed[PageSize], Preamble(id))
    ensures Decide(pr, id, title, body, listed).Create?
  {
    DecideCreatesWhenWindowUnowned(pr, id, title, body, listed);
  }

  /** Distinct ids do not give a unique slot: a title that carries another
      id's preamble makes the comment look owned by that other id, so a run
      for `other` would update it. */
  lemma TitleCanForgeOwnership(cid: int, id: string, other: string, body: string)
    ensures Owned(Comment(cid, Some(Content(id, Preamble(other), body))), Preamble(other))
  {
    var t := Preamble(other);
    assert Contains(t, t) by { assert OccursAt(t, t, 0); }
    ContainedInConcat(Preamble(id) + "\n", t, "\n\n" + body, t);
    assert Preamble(id) + "\n" + t + ("\n\n" + body) == Content(id, t, body);
  }

  /** The marker determines the id. */
  lemma PreambleIsInjective(a: string, b: string)
    requires Preamble(a) == Preamble(b)
    ensures a == b
  {
  }

  /** The worked example's content, spelled out. */
  lemma ReleaseNotesContent()
    ensures Content("release-notes", "Release v1.2", "Fixes bug X")
      == "<!-- comment-id:release-notes -->\n\n\nRelease v1.2\n\nFixes bug X"
  {
    var p := Preamble("release-notes");
    assert p == "<!-- comment-id:release-notes -->\n\n";
    assert p + "\n" == "<!-- comment-id:release-notes -->\n\n\n";
    assert p + "\n" + "Release v1.2" == "<!-- comment-id:release-notes -->\n\n\nRelease v1.2";
    assert p + "\n" + "Release v1.2" + "\n\n" == "<!-- comment-id:release-notes -->\n\n\nRelease v1.2\n\n";
  }
}
