/** The pull request's comment list on the host, as an abstract state, and
    what one run's decision does to it. */
module Remote {
  import opened Wrappers
  import opened Upsert

  /** The host never gives two comments the same id. */
  ghost predicate UniqueIds(s: seq<Comment>) {
    forall i, j :: 0 <= i < j < |s| ==> s[i].id != s[j].id
  }

  /** The ids in use on the pull request. */
  ghost function Ids(s: seq<Comment>): set<int> {
    set c | c in s :: c.id
  }

  /** `updateComment`: the comment with id `cid` gets `content` as its body. */
  function SetBody(s: seq<Comment>, cid: int, content: string): (r: seq<Comment>)
    ensures |r| == |s|
    ensures forall k :: 0 <= k < |s| && s[k].id == cid ==> r[k] == Comment(cid, Some(content))
    ensures forall k :: 0 <= k < |s| && s[k].id != cid ==> r[k] == s[k]
  {
    if |s| == 0 then []
    else
      var head := if s[0].id == cid then Comment(cid, Some(content)) else s[0];
      [head] + SetBody(s[1..], cid, content)
  }

  /** Where a created comment appears in the host's listing order: the
      position the host picks, or the end when it picks one past the end. */
  function Slot(s: seq<Comment>, at: nat): (p: nat)
    ensures p <= |s| && p <= at
    ensures p == at || p == |s|
  {
    if at <= |s| then at else |s|
  }

  /** Carries a decision out on the host. A created comment receives the id
      `freshId` and appears at position `Slot(s, at)` of the listing; both
      are the host's choice. An update keeps the comment where it was. */
  function Apply(s: seq<Comment>, d: Decision, freshId: int, at: nat): (r: seq<Comment>)
    ensures d.Skip? ==> r == s
    ensures !d.Create? ==> |r| == |s|
    ensures d.Update? ==> forall k :: 0 <= k < |s| ==>
      r[k] == (if s[k].id == d.commentId then Comment(s[k].id, Some(d.content)) else s[k])
    ensures d.Create? ==> |r| == |s| + 1 && r[Slot(s, at)] == Comment(freshId, Some(d.content))
  {
    match d
    case Skip => s
    case Update(cid, content) => SetBody(s, cid, content)
    case Create(_, content) =>
      var p := Slot(s, at);
      s[..p] + [Comment(freshId, Some(content))] + s[p..]
  }

  /** One complete run against the state: the host lists the comments in its
      own order, the run decides, and the decision is carried out. */
  function RunOnce(pr: Option<int>, id: string, title: string, body: string,
                   s: seq<Comment>, freshId: int, at: nat): seq<Comment>
  {
    Apply(s, Decide(pr, id, title, body, s), freshId, at)
  }

  /** An update rewrites exactly the body of the comment it names: the count
      is unchanged and every other comment stays as it was. */
  lemma ApplyUpdateFrame(s: seq<Comment>, i: nat, content: string, freshId: int, at: nat)
    requires UniqueIds(s)
    requires i < |s|
    ensures var r := Apply(s, Update(s[i].id, content), freshId, at);
      && |r| == |s|
      && r[i] == Comment(s[i].id, Some(content))
      && forall k :: 0 <= k < |s| && k != i ==> r[k] == s[k]
  {
    var r := Apply(s, Update(s[i].id, content), freshId, at);
    forall k | 0 <= k < |s| && k != i
      ensures r[k] == s[k]
    {
      if k < i {
        assert s[k].id != s[i].id;
      } else {
        assert s[i].id != s[k].id;
      }
    }
  }

  /** A create adds one comment carrying the content at the host's chosen
      position; the existing comments keep their order and contents. */
  lemma ApplyCreateFrame(s: seq<Comment>, issue: int, content: string, freshId: int, at: nat)
    ensures var r := Apply(s, Create(issue, content), freshId, at);
      var p := Slot(s, at);
      && |r| == |s| + 1
      && r[..p] == s[..p]
      && r[p] == Comment(freshId, Some(content))
      && r[p + 1..] == s[p..]
      && r[..p] + r[p + 1..] == s
  {
    var r := Apply(s, Create(issue, content), freshId, at);
    var p := Slot(s, at);
    assert r[..p] == s[..p];
    assert r[p + 1..] == s[p..];
    assert s[..p] + s[p..] == s;
  }

  /** A skipped run leaves the comment list as it was. */
  lemma SkipChangesNothing(pr: Option<int>, id: string, title: string, body: string,
                           s: seq<Comment>, freshId: int, at: nat)
    requires !IsPullRequest(pr)
    ensures RunOnce(pr, id, title, body, s, freshId, at) == s
  {
  }

  /** Carrying out a decision keeps ids unique, provided a created comment's
      id is new. */
  lemma ApplyKeepsIdsUnique(s: seq<Comment>, d: Decision, freshId: int, at: nat)
    requires UniqueIds(s)
    requires d.Create? ==> freshId !in Ids(s)
    ensures UniqueIds(Apply(s, d, freshId, at))
  {
    var r := Apply(s, d, freshId, at);
    if d.Create? {
      var p := Slot(s, at);
      ApplyCreateFrame(s, d.issue, d.content, freshId, at);
      forall i, j | 0 <= i < j < |r|
        ensures r[i].id != r[j].id
      {
        // Position k != p of r holds s[k] below p and s[k - 1] above it.
        if i == p {
          assert r[j] == r[p + 1..][j - p - 1] == s[j - 1];
          assert s[j - 1] in s;
        } else if j == p {
          assert r[i] == r[..p][i] == s[i];
          assert s[i] in s;
        } else {
          var si := if i < p then i else i - 1;
          var sj := if j < p then j else j - 1;
          assert r[i] == s[si] by {
            if i < p { assert r[i] == r[..p][i]; } else { assert r[i] == r[p + 1..][i - p - 1]; }
          }
          assert r[j] == s[sj] by {
            if j < p { assert r[j] == r[..p][j]; } else { assert r[j] == r[p + 1..][j - p - 1]; }
          }
        }
      }
    }
  }

  /** The comment a run wrote is the one the run after it finds: a second
      run with the same id, whatever its title and body, updates that same
      comment and creates nothing. A created comment must appear within the
      window, so the host must place it at a position below `PageSize`. */
  lemma {:induction false} SecondRunUpdates(pr: Option<int>, id: string, title: string, body: string,
                                            title2: string, body2: string,
                                            s: seq<Comment>, freshId: int, at: nat)
    requires IsPullRequest(pr)
    requires UniqueIds(s)
    requires Decide(pr, id, title, body, s).Create? ==> at < PageSize
    ensures var d := Decide(pr, id, title, body, s);
      var written := if d.Update? then d.commentId else freshId;
      Decide(pr, id, title2, body2, RunOnce(pr, id, title, body, s, freshId, at))
        == Update(written, Content(id, title2, body2))
  {
    var d := Decide(pr, id, title, body, s);
    var s' := RunOnce(pr, id, title, body, s, freshId, at);
    var marker := Preamble(id);
    var w := Window(s);
    if d.Update? {
      var i :| IsFirstOwned(w, marker, i) && d == Update(s[i].id, Content(id, title, body));
      ApplyUpdateFrame(s, i, d.content, freshId, at);
      ContentIsOwned(s[i].id, id, title, body);
      assert IsFirstOwned(s', marker, i) by {
        forall j | 0 <= j < i
          ensures !Owned(s'[j], marker)
        {
          assert s'[j] == s[j] == w[j];
        }
      }
      DecideUpdatesFirstOwned(pr, id, title2, body2, s', i);
    } else {
      var p := Slot(s, at);
      ApplyCreateFrame(s, d.issue, d.content, freshId, at);
      ContentIsOwned(freshId, id, title, body);
      assert IsFirstOwned(s', marker, p) by {
        forall j | 0 <= j < p
          ensures !Owned(s'[j], marker)
        {
          assert s'[j] == s'[..p][j] == s[j] == w[j];
        }
      }
      DecideUpdatesFirstOwned(pr, id, title2, body2, s', p);
    }
  }

  /** Running twice with the same inputs leaves the list as running once did. */
  lemma {:induction false} RunIsIdempotent(pr: Option<int>, id: string, title: string, body: string,
                                           s: seq<Comment>, freshId: int, at: nat,
                                           freshId2: int, at2: nat)
    requires UniqueIds(s)
    requires freshId !in Ids(s)
    requires Decide(pr, id, title, body, s).Create? ==> at < PageSize
    ensures var once := RunOnce(pr, id, title, body, s, freshId, at);
      RunOnce(pr, id, title, body, once, freshId2, at2) == once
  {
    var once := RunOnce(pr, id, title, body, s, freshId, at);
    if IsPullRequest(pr) {
      var d := Decide(pr, id, title, body, s);
      var written := if d.Update? then d.commentId else freshId;
      var content := Content(id, title, body);
      SecondRunUpdates(pr, id, title, body, title, body, s, freshId, at);
      ApplyKeepsIdsUnique(s, d, freshId, at);
      var i :| IsFirstOwned(Window(once), Preamble(id), i) && once[i].id == written;
      assert once[i].body == Some(content) by {
        if d.Update? {
          var i0 :| IsFirstOwned(Window(s), Preamble(id), i0) && d == Update(s[i0].id, content);
          ApplyUpdateFrame(s, i0, content, freshId, at);
          assert once[i0].id == written;
        } else {
          ApplyCreateFrame(s, d.issue, content, freshId, at);
          assert once[Slot(s, at)].id == written;
        }
      }
      var twice := SetBody(once, written, content);
      forall k | 0 <= k < |once|
        ensures twice[k] == once[k]
      {
        if k < i {
          assert once[k].id != once[i].id;
        } else if i < k {
          assert once[i].id != once[k].id;
        }
      }
    }
  }
}
