/** The progress notifier of an initiative
    (decidim-initiatives/app/services/decidim/initiatives/progress_notifier.rb):
    one progress mail to every follower, then to every approved committee
    member, then to the author; the author is skipped in the first two passes
    and nobody else is de-duplicated.  `deliver_later` is an append to the
    sequence of mails `Notify` returns. */
module ProgressNotifier {
  import RubyCore

  type UserId = nat

  /** A promoter committee membership; `approved` is the `approved` scope. */
  datatype CommitteeMember = CommitteeMember(user: UserId, approved: bool)

  datatype Initiative = Initiative(
    id: nat,
    author: UserId,
    followers: seq<UserId>,
    committeeMembers: seq<CommitteeMember>)

  /** `InitiativesMailer.notify_progress(initiative, recipient)`. */
  datatype Mail = NotifyProgress(initiative: nat, recipient: UserId)

  /** The users of the approved committee members, in order. */
  function ApprovedUsers(members: seq<CommitteeMember>): (r: seq<UserId>)
    ensures forall u :: u in r <==> exists m :: m in members && m.approved && m.user == u
  {
    if |members| == 0 then []
    else
      var front := members[..|members| - 1];
      var last := members[|members| - 1];
      assert forall m :: m in members <==> m in front || m == last;
      ApprovedUsers(front) + (if last.approved then [last.user] else [])
  }

  /** Everybody in `s` except `author`, in order and with repetitions. */
  function NotAuthor(s: seq<UserId>, author: UserId): (r: seq<UserId>)
    ensures author !in r
    ensures forall u :: u != author ==> (u in r <==> u in s)
  {
    RubyCore.RemoveAll(s, author)
  }

  /** The recipients of `notify`, in the order the mails are sent. */
  function ProgressRecipients(i: Initiative): seq<UserId> {
    NotAuthor(i.followers, i.author) + NotAuthor(ApprovedUsers(i.committeeMembers), i.author) + [i.author]
  }

  function Mails(id: nat, recipients: seq<UserId>): (r: seq<Mail>)
    ensures |r| == |recipients|
    ensures forall k :: 0 <= k < |r| ==> r[k] == NotifyProgress(id, recipients[k])
  {
    seq(|recipients|, k requires 0 <= k < |recipients| => NotifyProgress(id, recipients[k]))
  }

  lemma MailsSnoc(id: nat, rs: seq<UserId>, x: UserId)
    ensures Mails(id, rs + [x]) == Mails(id, rs) + [NotifyProgress(id, x)]
  {
  }

  /** `notify`: the follower pass, the committee pass, then the author. */
  method Notify(i: Initiative) returns (sent: seq<Mail>)
    ensures sent == Mails(i.id, ProgressRecipients(i))
  {
    sent := [];
    ghost var recipients: seq<UserId> := [];
    var k := 0;
    while k < |i.followers|
      invariant 0 <= k <= |i.followers|
      invariant recipients == NotAuthor(i.followers[..k], i.author)
      invariant sent == Mails(i.id, recipients)
    {
      var follower := i.followers[k];
      FollowerStep(i.followers, k, i.author);
      if i.author != follower {
        MailsSnoc(i.id, recipients, follower);
        sent := sent + [NotifyProgress(i.id, follower)];
        recipients := recipients + [follower];
      }
      k := k + 1;
    }
    assert i.followers[..k] == i.followers;
    ghost var fromFollowers := recipients;
    ghost var fromCommittee: seq<UserId> := [];
    var members := i.committeeMembers;
    k := 0;
    while k < |members|
      invariant 0 <= k <= |members|
      invariant fromCommittee == NotAuthor(ApprovedUsers(members[..k]), i.author)
      invariant recipients == fromFollowers + fromCommittee
      invariant sent == Mails(i.id, recipients)
    {
      var member := members[k];
      CommitteeStep(members, k, i.author);
      if member.approved && i.author != member.user {
        MailsSnoc(i.id, recipients, member.user);
        sent := sent + [NotifyProgress(i.id, member.user)];
        recipients := recipients + [member.user];
        fromCommittee := fromCommittee + [member.user];
      }
      k := k + 1;
    }
    assert members[..k] == members;
    assert recipients + [i.author] == ProgressRecipients(i);
    MailsSnoc(i.id, recipients, i.author);
    sent := sent + [NotifyProgress(i.id, i.author)];
  }

  /** One turn of the follower pass. */
  lemma FollowerStep(followers: seq<UserId>, k: nat, author: UserId)
    requires k < |followers|
    ensures followers[k] != author ==>
              NotAuthor(followers[..k + 1], author) == NotAuthor(followers[..k], author) + [followers[k]]
    ensures followers[k] == author ==> NotAuthor(followers[..k + 1], author) == NotAuthor(followers[..k], author)
  {
    assert followers[..k + 1] == followers[..k] + [followers[k]];
    RubyCore.RemoveAllSnoc(followers[..k], author, followers[k]);
  }

  /** One turn of the committee pass. */
  lemma CommitteeStep(members: seq<CommitteeMember>, k: nat, author: UserId)
    requires k < |members|
    ensures members[k].approved && members[k].user != author ==>
              NotAuthor(ApprovedUsers(members[..k + 1]), author) ==
              NotAuthor(ApprovedUsers(members[..k]), author) + [members[k].user]
    ensures !(members[k].approved && members[k].user != author) ==>
              NotAuthor(ApprovedUsers(members[..k + 1]), author) == NotAuthor(ApprovedUsers(members[..k]), author)
  {
    assert members[..k + 1][..k] == members[..k];
    assert members[..k + 1][k] == members[k];
    var before := ApprovedUsers(members[..k]);
    if members[k].approved {
      assert ApprovedUsers(members[..k + 1]) == before + [members[k].user];
      RubyCore.RemoveAllSnoc(before, author, members[k].user);
    } else {
      assert ApprovedUsers(members[..k + 1]) == before + [];
      assert before + [] == before;
      assert NotAuthor(before, author) + [] == NotAuthor(before, author);
    }
  }

  // ---------------------------------------------------------------------
  // Properties of the recipient list

  /** The author is mailed exactly once, last. */
  lemma AuthorMailedOnceLast(i: Initiative)
    ensures var rs := ProgressRecipients(i);
            |rs| > 0 && rs[|rs| - 1] == i.author && multiset(rs)[i.author] == 1
  {
    var a := NotAuthor(i.followers, i.author);
    var b := NotAuthor(ApprovedUsers(i.committeeMembers), i.author);
    assert i.author !in multiset(a) && i.author !in multiset(b);
    assert multiset(a + b + [i.author]) == multiset(a) + multiset(b) + multiset{i.author};
  }

  /** One mail per follower and per approved member who is not the author,
      plus the author's. */
  lemma ProgressCount(i: Initiative)
    ensures |ProgressRecipients(i)| ==
              |NotAuthor(i.followers, i.author)| + |NotAuthor(ApprovedUsers(i.committeeMembers), i.author)| + 1
  {
  }

  /** There is no de-duplication: anybody but the author gets as many mails as
      the times they follow plus the times they are an approved member. */
  lemma NoDeduplication(i: Initiative, u: UserId)
    requires u != i.author
    ensures multiset(ProgressRecipients(i))[u] ==
              multiset(i.followers)[u] + multiset(ApprovedUsers(i.committeeMembers))[u]
  {
    RubyCore.RemoveAllMultiplicity(i.followers, i.author, u);
    RubyCore.RemoveAllMultiplicity(ApprovedUsers(i.committeeMembers), i.author, u);
    var a := NotAuthor(i.followers, i.author);
    var b := NotAuthor(ApprovedUsers(i.committeeMembers), i.author);
    assert multiset(a + b + [i.author]) == multiset(a) + multiset(b) + multiset{i.author};
  }

  /** The mails go out in three runs: the followers, the committee, the author. */
  lemma ProgressOrder(i: Initiative)
    ensures var rs := ProgressRecipients(i);
            var f := |NotAuthor(i.followers, i.author)|;
            var c := |NotAuthor(ApprovedUsers(i.committeeMembers), i.author)|;
            |rs| == f + c + 1 &&
            (forall k :: 0 <= k < f ==> rs[k] in i.followers && rs[k] != i.author) &&
            (forall k :: f <= k < f + c ==>
               rs[k] != i.author && exists m :: m in i.committeeMembers && m.approved && m.user == rs[k]) &&
            rs[f + c] == i.author
  {
    var a := NotAuthor(i.followers, i.author);
    var b := NotAuthor(ApprovedUsers(i.committeeMembers), i.author);
    var rs := a + b + [i.author];
    forall k | 0 <= k < |a| ensures rs[k] in i.followers && rs[k] != i.author {
      assert rs[k] == a[k];
    }
    forall k | |a| <= k < |a| + |b|
      ensures rs[k] != i.author && exists m :: m in i.committeeMembers && m.approved && m.user == rs[k]
    {
      assert rs[k] == b[k - |a|];
      assert rs[k] in ApprovedUsers(i.committeeMembers);
    }
  }
}
