/** The medium initiative card
    (decidim-initiatives/app/cells/decidim/initiatives/initiative_m_cell.rb):
    the class of its state badge and the comment count it shows. */
module InitiativeMCell {
  import RubyCore

  /** `state_classes`: one class per state, by the card's colour scheme. */
  function StateClasses(state: string): (r: seq<string>)
    ensures |r| == 1
    ensures r[0] in {"success", "alert", "warning", "muted"}
    ensures r == ["success"] <==> state in {"accepted", "published", "debatted"}
    ensures r == ["alert"] <==> state in {"rejected", "discarded", "classified"}
    ensures r == ["warning"] <==> state in {"validating", "examinated"}
    ensures r == ["muted"] <==>
              state !in {"accepted", "published", "debatted", "rejected", "discarded", "classified",
                         "validating", "examinated"}
  {
    if state in {"accepted", "published", "debatted"} then ["success"]
    else if state in {"rejected", "discarded", "classified"} then ["alert"]
    else if state in {"validating", "examinated"} then ["warning"]
    else ["muted"]
  }

  /** A comment on the initiative, as far as the count looks at it. */
  datatype Comment = Comment(id: nat, hidden: bool)

  /** What the card is told about its model: whether the type enables comments,
      the comments, and whether the comments relation has a `not_hidden` scope. */
  datatype Card = Card(commentsEnabled: bool, comments: seq<Comment>, hasNotHiddenScope: bool, hasLinkToResource: bool)

  function NotHidden(comments: seq<Comment>): (r: seq<Comment>)
    ensures forall c :: c in r <==> c in comments && !c.hidden
    ensures |r| <= |comments|
  {
    RubyCore.Select(comments, (c: Comment) => !c.hidden)
  }

  /** `comments_count`: nothing when comments are disabled; the visible comments
      when hidden ones can be told apart; otherwise all of them. */
  function CommentsCount(card: Card): (n: nat)
    ensures !card.commentsEnabled ==> n == 0
    ensures n <= |card.comments|
    ensures card.commentsEnabled && card.hasNotHiddenScope ==> n == |NotHidden(card.comments)|
    ensures card.commentsEnabled && !card.hasNotHiddenScope ==> n == |card.comments|
  {
    if !card.commentsEnabled then 0
    else if card.hasNotHiddenScope then |NotHidden(card.comments)|
    else |card.comments|
  }

  /** With the `not_hidden` scope, the count is every comment exactly when none
      is hidden. */
  lemma {:induction false} NotHiddenCountsAll(comments: seq<Comment>)
    ensures |NotHidden(comments)| == |comments| <==> forall k :: 0 <= k < |comments| ==> !comments[k].hidden
  {
    if |comments| > 0 {
      NotHiddenCountsAll(comments[1..]);
      assert forall k :: 1 <= k < |comments| ==> comments[k] == comments[1..][k - 1];
      assert NotHidden(comments[1..]) == RubyCore.Select(comments[1..], (c: Comment) => !c.hidden);
      if comments[0].hidden {
        assert |NotHidden(comments)| == |NotHidden(comments[1..])|;
      }
    }
  }

  /** What `comments_count_status` renders. */
  datatype CommentsCountStatus = NoStatus | PlainCount | LinkedCount

  /** `comments_count_status`: nothing when comments are disabled, the count
      linked to the initiative when the card links to it, otherwise the bare count. */
  function CommentsCountStatusOf(card: Card): (s: CommentsCountStatus)
    ensures s == NoStatus <==> !card.commentsEnabled
    ensures s == LinkedCount <==> card.commentsEnabled && card.hasLinkToResource
  {
    if !card.commentsEnabled then NoStatus
    else if !card.hasLinkToResource then PlainCount
    else LinkedCount
  }
}
