/** One invocation of the action, with the host's API calls made explicit:
    the calls it issues, what it reports, and the comment list afterwards.
    The host's behaviour is an input: whether listing or the mutation
    throws, and the id it gives a created comment. */
module Action {
  import opened Wrappers
  import opened Upsert
  import opened Remote

  /** The repository the workflow runs in. */
  datatype Repo = Repo(owner: string, name: string)

  /** A value thrown by a host call: an `Error` object with its message, or
      anything else. */
  datatype Thrown = ErrorObject(message: string) | OtherValue

  /** How the host answers this invocation's calls: which call throws, and
      the id and listing position it gives a created comment. */
  datatype Host = Host(listFault: Option<Thrown>, mutationFault: Option<Thrown>,
                       freshId: int, insertAt: nat)

  /** The requests sent to the host, in order. */
  datatype Call =
    | ListComments(repo: Repo, issue: int, perPage: nat)
    | UpdateComment(repo: Repo, commentId: int, body: string)
    | CreateComment(repo: Repo, issue: int, body: string)

  /** What the workflow step shows: an informational skip, plain success, a
      failure carrying a message, or a thrown non-`Error` value that the
      catch swallows without marking the step failed. */
  datatype Report = Skipped | Succeeded | Failed(message: string) | Swallowed

  datatype Invocation = Invocation(report: Report, calls: seq<Call>, after: seq<Comment>)

  /** The catch-all: only an `Error` object marks the step failed. */
  function Catch(t: Thrown): (r: Report)
    ensures r.Failed? <==> t.ErrorObject?
    ensures t.ErrorObject? ==> r.message == t.message
    ensures r.Failed? || r.Swallowed?
  {
    match t
    case ErrorObject(m) => Failed(m)
    case OtherValue => Swallowed
  }

  /** The request that carries out a decision that is not a skip. */
  function MutationCall(repo: Repo, d: Decision): Call
    requires !d.Skip?
  {
    match d
    case Update(cid, content) => UpdateComment(repo, cid, content)
    case Create(issue, content) => CreateComment(repo, issue, content)
  }

  /** `run()`: guard on the pull-request number, list the comments, decide,
      then make the single mutation; a throwing call ends the run. */
  function Run(repo: Repo, pr: Option<int>, id: string, title: string, body: string,
               s: seq<Comment>, host: Host): (r: Invocation)
    ensures r.report.Skipped? <==> !IsPullRequest(pr)
    ensures |r.calls| <= 2
    ensures IsPullRequest(pr) ==> |r.calls| >= 1 && r.calls[0] == ListComments(repo, pr.value, PageSize)
    ensures |r.calls| == 2 ==> !r.calls[1].ListComments? && r.calls[1].body == Content(id, title, body)
    ensures r.report.Succeeded? ==> |r.calls| == 2
    ensures !r.report.Succeeded? ==> r.after == s
    ensures r.report.Failed? ==> host.listFault == Some(ErrorObject(r.report.message))
                                 || host.mutationFault == Some(ErrorObject(r.report.message))
  {
    if !IsPullRequest(pr) then Invocation(Skipped, [], s)
    else
      var list := ListComments(repo, pr.value, PageSize);
      match host.listFault
      case Some(t) => Invocation(Catch(t), [list], s)
      case None =>
        var d := Decide(pr, id, title, body, s);
        var calls := [list, MutationCall(repo, d)];
        match host.mutationFault
        case Some(t) => Invocation(Catch(t), calls, s)
        case None => Invocation(Succeeded, calls, Apply(s, d, host.freshId, host.insertAt))
  }

  /** Outside a pull request (number absent or 0) nothing is called, nothing
      changes and no failure is reported; with a pull request the run never
      skips and its first call lists 25 comments of that pull request. */
  lemma RunSkipsOutsidePullRequest(repo: Repo, pr: Option<int>, id: string, title: string,
                                   body: string, s: seq<Comment>, host: Host)
    ensures var r := Run(repo, pr, id, title, body, s, host);
      && (r.report == Skipped <==> !IsPullRequest(pr))
      && (!IsPullRequest(pr) ==> r.calls == [] && r.after == s)
      && (IsPullRequest(pr) ==> |r.calls| >= 1 && r.calls[0] == ListComments(repo, pr.value, PageSize))
  {
  }

  /** A failed listing is the end of the run: no mutation, no retry, the
      list unchanged, and the error's message as the only report. */
  lemma RunListFailure(repo: Repo, pr: Option<int>, id: string, title: string, body: string,
                       s: seq<Comment>, host: Host)
    requires IsPullRequest(pr)
    requires host.listFault.Some?
    ensures var r := Run(repo, pr, id, title, body, s, host);
      && r.calls == [ListComments(repo, pr.value, PageSize)]
      && r.after == s
      && (host.listFault.value.ErrorObject? ==> r.report == Failed(host.listFault.value.message))
      && (host.listFault.value.OtherValue? ==> r.report == Swallowed)
  {
  }

  /** A failed mutation leaves no partial success: the run made one listing
      and the one mutation it decided on, the list is unchanged, and the
      report is what the catch-all makes of the thrown value. */
  lemma RunMutationFailure(repo: Repo, pr: Option<int>, id: string, title: string, body: string,
                           s: seq<Comment>, host: Host)
    requires IsPullRequest(pr)
    requires host.listFault.None? && host.mutationFault.Some?
    ensures var r := Run(repo, pr, id, title, body, s, host);
      && r.calls == [ListComments(repo, pr.value, PageSize),
                     MutationCall(repo, Decide(pr, id, title, body, s))]
      && r.after == s
      && r.report == Catch(host.mutationFault.value)
      && (host.mutationFault.value.ErrorObject? ==> r.report == Failed(host.mutationFault.value.message))
  {
  }

  /** When the first owned comment among the first 25 is at position `i`,
      the run updates exactly that comment with the new content and creates
      nothing; only that comment's body changes. */
  lemma RunUpdatesOwnedComment(repo: Repo, pr: Option<int>, id: string, title: string,
                               body: string, s: seq<Comment>, host: Host, i: nat)
    requires IsPullRequest(pr)
    requires host.listFault.None? && host.mutationFault.None?
    requires UniqueIds(s)
    requires i < PageSize
    requires IsFirstOwned(s, Preamble(id), i)
    ensures var r := Run(repo, pr, id, title, body, s, host);
      var content := Content(id, title, body);
      && r.report == Succeeded
      && r.calls == [ListComments(repo, pr.value, PageSize), UpdateComment(repo, s[i].id, content)]
      && |r.after| == |s|
      && r.after[i] == Comment(s[i].id, Some(content))
      && forall k :: 0 <= k < |s| && k != i ==> r.after[k] == s[k]
  {
    var content := Content(id, title, body);
    DecideUpdatesFirstOwned(pr, id, title, body, s, i);
    ApplyUpdateFrame(s, i, content, host.freshId, host.insertAt);
  }

  /** When no comment among the first 25 is owned (even if one further down
      is), the run creates exactly one comment on the pull request; the
      count grows by one and the existing comments keep their order and
      contents around the new one. */
  lemma RunCreatesComment(repo: Repo, pr: Option<int>, id: string, title: string,
                          body: string, s: seq<Comment>, host: Host)
    requires IsPullRequest(pr)
    requires host.listFault.None? && host.mutationFault.None?
    requires forall j :: 0 <= j < |s| && j < PageSize ==> !Owned(s[j], Preamble(id))
    ensures var r := Run(repo, pr, id, title, body, s, host);
      var content := Content(id, title, body);
      var p := Slot(s, host.insertAt);
      && r.report == Succeeded
      && r.calls == [ListComments(repo, pr.value, PageSize), CreateComment(repo, pr.value, content)]
      && |r.after| == |s| + 1
      && r.after[p] == Comment(host.freshId, Some(content))
      && r.after[..p] + r.after[p + 1..] == s
  {
    var content := Content(id, title, body);
    DecideCreatesWhenWindowUnowned(pr, id, title, body, s);
    ApplyCreateFrame(s, pr.value, content, host.freshId, host.insertAt);
  }

  /** A successful run is followed by a run with the same id that updates
      the comment the first one wrote, whatever the new title and body, as
      long as the host listed a created comment within the first 25. */
  lemma RunConverges(repo: Repo, pr: Option<int>, id: string, title: string, body: string,
                     title2: string, body2: string, s: seq<Comment>, host: Host, host2: Host)
    requires IsPullRequest(pr)
    requires host.listFault.None? && host.mutationFault.None?
    requires host2.listFault.None? && host2.mutationFault.None?
    requires UniqueIds(s)
    requires Decide(pr, id, title, body, s).Create? ==> host.insertAt < PageSize
    ensures var first := Run(repo, pr, id, title, body, s, host);
      var second := Run(repo, pr, id, title2, body2, first.after, host2);
      && |first.calls| == 2 && |second.calls| == 2
      && second.calls[1].UpdateComment?
      && second.calls[1].body == Content(id, title2, body2)
      && |second.after| == |first.after|
      && (first.calls[1].UpdateComment? ==> second.calls[1].commentId == first.calls[1].commentId)
      && (first.calls[1].CreateComment? ==> second.calls[1].commentId == host.freshId)
  {
    var d := Decide(pr, id, title, body, s);
    SecondRunUpdates(pr, id, title, body, title2, body2, s, host.freshId, host.insertAt);
    var first := Run(repo, pr, id, title, body, s, host);
    assert first.after == RunOnce(pr, id, title, body, s, host.freshId, host.insertAt);
  }

  /** The worked example: a first run for id "release-notes" on a pull
      request with no comments creates one comment whose body starts with
      the marker, followed by the title and the body. */
  lemma ReleaseNotesExample(repo: Repo, host: Host)
    requires host.listFault.None? && host.mutationFault.None?
    ensures var r := Run(repo, Some(7), "release-notes", "Release v1.2", "Fixes bug X", [], host);
      && r.calls == [ListComments(repo, 7, 25),
                     CreateComment(repo, 7, "<!-- comment-id:release-notes -->\n\n\nRelease v1.2\n\nFixes bug X")]
      && r.after == [Comment(host.freshId, Some("<!-- comment-id:release-notes -->\n\n\nRelease v1.2\n\nFixes bug X"))]
  {
    var content := Content("release-notes", "Release v1.2", "Fixes bug X");
    DecideCreatesWhenWindowUnowned(Some(7), "release-notes", "Release v1.2", "Fixes bug X", []);
    ReleaseNotesContent();
    ApplyCreateFrame([], 7, content, host.freshId, host.insertAt);
    var r := Run(repo, Some(7), "release-notes", "Release v1.2", "Fixes bug X", [], host);
    assert r.calls == [ListComments(repo, 7, 25), CreateComment(repo, 7, content)];
    assert r.after == [Comment(host.freshId, Some(content))];
  }
}
