/** The decisions behind the endorsement markup of questions
    (app/helpers/decidim/questions/question_endorsements_helper.rb): who may
    endorse, when a question counts as fully endorsed by a user and all of
    their groups, and which of the endorsement buttons the card shows.  The
    HTML is not modelled; each helper returns what selects it. */
module QuestionEndorsements {
  import opened Wrappers
  import RubyCore

  /** The step settings the helpers read. */
  datatype Settings = Settings(endorsementsEnabled: bool, endorsementsBlocked: bool)

  /** An endorsement of the question: its author and the group it was made on
      behalf of, if any. */
  datatype Endorsement = Endorsement(author: nat, userGroup: Option<nat>)

  /** `endorsement_button_classes`. */
  function EndorsementButtonClasses(fromQuestionsList: bool): (r: string)
    ensures r == "small" <==> fromQuestionsList
    ensures "small" <= r
  {
    if fromQuestionsList then "small" else "small compact light button--sc expanded"
  }

  /** `current_user_can_endorse?`, read for its truthiness. */
  predicate CurrentUserCanEndorse(currentUser: Option<nat>, settings: Settings) {
    currentUser.Some? && settings.endorsementsEnabled && !settings.endorsementsBlocked
  }

  /** `show_endorsements_card?`. */
  predicate ShowEndorsementsCard(settings: Settings) {
    settings.endorsementsEnabled
  }

  /** Whoever may endorse sees the card; a blocked step lets nobody endorse. */
  lemma EndorseNeedsCard(currentUser: Option<nat>, settings: Settings)
    ensures CurrentUserCanEndorse(currentUser, settings) ==> ShowEndorsementsCard(settings)
    ensures settings.endorsementsBlocked ==> !CurrentUserCanEndorse(currentUser, settings)
    ensures currentUser.None? ==> !CurrentUserCanEndorse(currentUser, settings)
  {
  }

  /** `question.endorsed_by?(user, user_group)`: an endorsement by the user on
      behalf of exactly that group (none for a personal one). */
  predicate EndorsedBy(endorsements: seq<Endorsement>, user: nat, userGroup: Option<nat>) {
    Endorsement(user, userGroup) in endorsements
  }

  /** `fully_endorsed?`: `user` endorsed personally and on behalf of each of
      `verifiedGroups`, the verified groups the user manages. */
  predicate FullyEndorsed(endorsements: seq<Endorsement>, user: Option<nat>, verifiedGroups: seq<nat>) {
    if user.None? then false
    else
      (forall k :: 0 <= k < |verifiedGroups| ==> EndorsedBy(endorsements, user.value, Some(verifiedGroups[k]))) &&
      EndorsedBy(endorsements, user.value, None)
  }

  /** Without groups, fully endorsed is endorsed personally; never without a user. */
  lemma FullyEndorsedWithoutGroups(endorsements: seq<Endorsement>, user: Option<nat>)
    ensures FullyEndorsed(endorsements, user, []) <==> user.Some? && EndorsedBy(endorsements, user.value, None)
    ensures !FullyEndorsed(endorsements, None, [])
  {
  }

  /** More endorsements never undo full endorsement, and one missing group
      endorsement prevents it. */
  lemma FullyEndorsedMonotonic(endorsements: seq<Endorsement>, more: seq<Endorsement>, user: Option<nat>, verifiedGroups: seq<nat>)
    ensures FullyEndorsed(endorsements, user, verifiedGroups) ==> FullyEndorsed(endorsements + more, user, verifiedGroups)
    ensures user.Some? && (exists g :: g in verifiedGroups && !EndorsedBy(endorsements, user.value, Some(g))) ==>
              !FullyEndorsed(endorsements, user, verifiedGroups)
  {
    if FullyEndorsed(endorsements, user, verifiedGroups) {
      forall e | e in endorsements ensures e in endorsements + more { }
    }
  }

  datatype HttpMethod = Delete | Post

  /** The method of the identity toggle in `render_endorsement_identity`. */
  function IdentityHttpMethod(endorsements: seq<Endorsement>, user: nat, userGroup: Option<nat>): (m: HttpMethod)
    ensures m == Delete <==> EndorsedBy(endorsements, user, userGroup)
  {
    if EndorsedBy(endorsements, user, userGroup) then Delete else Post
  }

  /** Toggling: once the identity has endorsed, the toggle removes it, and
      without the endorsement the toggle creates it. */
  lemma IdentityToggles(endorsements: seq<Endorsement>, user: nat, userGroup: Option<nat>)
    ensures IdentityHttpMethod(endorsements + [Endorsement(user, userGroup)], user, userGroup) == Delete
    ensures IdentityHttpMethod([], user, userGroup) == Post
  {
    assert (endorsements + [Endorsement(user, userGroup)])[|endorsements|] == Endorsement(user, userGroup);
  }

  /** What `render_endorsements_count_card_part` renders: a link or a plain
      element, with its classes. */
  datatype CountCardPart = CountCardPart(isLink: bool, cssClass: string)

  const DefaultCountClass := "button small compact light button--sc button--shadow"

  function CountCardPartOf(count: int, fullyEndorsed: bool, htmlClass: Option<string>): (p: CountCardPart)
    ensures p.isLink <==> count > 0
    ensures fullyEndorsed ==> p.cssClass == (if RubyCore.Blank(htmlClass) then DefaultCountClass else htmlClass.value) + " success"
    ensures !fullyEndorsed ==> p.cssClass == (if RubyCore.Blank(htmlClass) then DefaultCountClass else htmlClass.value) + " secondary"
  {
    var base := if RubyCore.Blank(htmlClass) then DefaultCountClass else htmlClass.value;
    CountCardPart(count > 0, base + " " + (if fullyEndorsed then "success" else "secondary"))
  }

  /** The button `render_endorsements_button_card_part` renders. */
  datatype ButtonBranch = DisabledButton | IdentitiesCabin | AuthorizationModal | AuthorizedButton

  /** The first branch whose condition holds. */
  function ButtonBranchOf(settings: Settings, canParticipate: bool, currentUser: Option<nat>, allowedToEndorse: bool): (b: ButtonBranch)
    ensures b == DisabledButton <==> settings.endorsementsBlocked || !canParticipate
    ensures b == IdentitiesCabin <==>
              !settings.endorsementsBlocked && canParticipate && currentUser.Some? && allowedToEndorse
    ensures b == AuthorizationModal <==>
              !settings.endorsementsBlocked && canParticipate && currentUser.Some? && !allowedToEndorse
    ensures b == AuthorizedButton <==> !settings.endorsementsBlocked && canParticipate && currentUser.None?
  {
    if settings.endorsementsBlocked || !canParticipate then DisabledButton
    else if currentUser.Some? && allowedToEndorse then IdentitiesCabin
    else if currentUser.Some? then AuthorizationModal
    else AuthorizedButton
  }

  /** The button card does not look at whether endorsements are enabled. */
  lemma ButtonIgnoresEnabled(settings: Settings, canParticipate: bool, currentUser: Option<nat>, allowedToEndorse: bool)
    ensures ButtonBranchOf(settings, canParticipate, currentUser, allowedToEndorse) ==
            ButtonBranchOf(Settings(!settings.endorsementsEnabled, settings.endorsementsBlocked),
                           canParticipate, currentUser, allowedToEndorse)
  {
  }
}
