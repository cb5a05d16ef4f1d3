/** The decisions of the initiatives view helper
    (decidim-initiatives/app/helpers/decidim/initiatives/initiative_helper.rb):
    the state badge, the popularity buckets, and the authorization handlers
    the sign-in modals offer.  The answers of `ActionAuthorizer` are given
    as parameters. */
module InitiativeHelper {
  import opened Wrappers
  import RubyCore

  /** `state_badge_css_class`. */
  function StateBadgeCssClass(state: string): (r: string)
    ensures r == "success" <==> state == "accepted"
    ensures r != "success" ==> r == "warning"
  {
    if state == "accepted" then "success" else "warning"
  }

  // ---------------------------------------------------------------------
  // Popularity

  predicate PopularityLevel1(percentage: int) { percentage > 0 && percentage < 40 }
  predicate PopularityLevel2(percentage: int) { percentage >= 40 && percentage < 60 }
  predicate PopularityLevel3(percentage: int) { percentage >= 60 && percentage < 80 }
  predicate PopularityLevel4(percentage: int) { percentage >= 80 && percentage < 100 }
  predicate PopularityLevel5(percentage: int) { percentage >= 100 }

  /** `popularity_class`: the first level predicate that holds names the class. */
  function PopularityClass(percentage: int): string {
    if PopularityLevel1(percentage) then "popularity--level1"
    else if PopularityLevel2(percentage) then "popularity--level2"
    else if PopularityLevel3(percentage) then "popularity--level3"
    else if PopularityLevel4(percentage) then "popularity--level4"
    else if PopularityLevel5(percentage) then "popularity--level5"
    else ""
  }

  /** The number of the level a class names, 0 for no class. */
  function LevelOf(cssClass: string): (n: nat)
    ensures n <= 5
  {
    if cssClass == "popularity--level1" then 1
    else if cssClass == "popularity--level2" then 2
    else if cssClass == "popularity--level3" then 3
    else if cssClass == "popularity--level4" then 4
    else if cssClass == "popularity--level5" then 5
    else 0
  }

  /** The buckets: no class up to 0, then [1,40), [40,60), [60,80), [80,100)
      and 100 or more. */
  lemma PopularityBuckets(percentage: int)
    ensures LevelOf(PopularityClass(percentage)) == 0 <==> percentage <= 0
    ensures PopularityClass(percentage) == "" <==> percentage <= 0
    ensures LevelOf(PopularityClass(percentage)) == 1 <==> 0 < percentage < 40
    ensures LevelOf(PopularityClass(percentage)) == 2 <==> 40 <= percentage < 60
    ensures LevelOf(PopularityClass(percentage)) == 3 <==> 60 <= percentage < 80
    ensures LevelOf(PopularityClass(percentage)) == 4 <==> 80 <= percentage < 100
    ensures LevelOf(PopularityClass(percentage)) == 5 <==> percentage >= 100
  {
  }

  /** At most one level predicate holds, and one does for every positive
      percentage: the order of the checks in `popularity_class` does not matter. */
  lemma PopularityLevelsPartition(percentage: int)
    ensures percentage > 0 <==>
              PopularityLevel1(percentage) || PopularityLevel2(percentage) || PopularityLevel3(percentage) ||
              PopularityLevel4(percentage) || PopularityLevel5(percentage)
    ensures !(PopularityLevel1(percentage) && PopularityLevel2(percentage))
    ensures !(PopularityLevel1(percentage) && PopularityLevel3(percentage))
    ensures !(PopularityLevel1(percentage) && PopularityLevel4(percentage))
    ensures !(PopularityLevel1(percentage) && PopularityLevel5(percentage))
    ensures !(PopularityLevel2(percentage) && PopularityLevel3(percentage))
    ensures !(PopularityLevel2(percentage) && PopularityLevel4(percentage))
    ensures !(PopularityLevel2(percentage) && PopularityLevel5(percentage))
    ensures !(PopularityLevel3(percentage) && PopularityLevel4(percentage))
    ensures !(PopularityLevel3(percentage) && PopularityLevel5(percentage))
    ensures !(PopularityLevel4(percentage) && PopularityLevel5(percentage))
  {
  }

  /** More support never gives a lower level. */
  lemma PopularityMonotonic(p: int, q: int)
    requires p <= q
    ensures LevelOf(PopularityClass(p)) <= LevelOf(PopularityClass(q))
  {
    PopularityBuckets(p);
    PopularityBuckets(q);
  }

  // ---------------------------------------------------------------------
  // Permissions

  /** The part of a type's `permissions` JSON for one action:
      its "authorization_handlers" hash, by its keys in order, when present. */
  datatype ActionPermissions = ActionPermissions(authorizationHandlers: Option<seq<string>>)

  /** The type's `permissions`, nil when it has none. */
  type Permissions = Option<map<string, ActionPermissions>>

  /** What the helper can raise: `nil.keys` or `nil.uniq`. */
  datatype Raised = NoMethodError

  /** The handler keys `dig` reaches for the action, if it reaches any. */
  function HandlersFor(action: string, permissions: map<string, ActionPermissions>): Option<seq<string>> {
    if action in permissions then permissions[action].authorizationHandlers else None
  }

  /** `permissions_for` as written: [] for a type without permissions; a type
      whose permissions do not mention the action makes `keys` raise. */
  function PermissionsFor(action: string, permissions: Permissions): (r: Result<seq<string>, Raised>)
    ensures permissions.None? ==> r == Success([])
    ensures permissions.Some? ==>
              (r.Success? <==> HandlersFor(action, permissions.value).Some?)
    ensures permissions.Some? && r.Success? ==> r.value == HandlersFor(action, permissions.value).value
  {
    if permissions.None? then Success([])
    else
      var handlers := HandlersFor(action, permissions.value);
      if handlers.None? then Failure(NoMethodError) else Success(handlers.value)
  }

  /** A type with permissions for creating only raises when asked for voting. */
  lemma PermissionsForOtherActionRaises()
    ensures PermissionsFor("vote", Some(map["create" := ActionPermissions(Some(["dummy"]))])).Failure?
  {
  }

  /** `permissions_for` as evidently intended: the handlers of the action, and
      none when the permissions say nothing about it. */
  function PermissionsForCorrected(action: string, permissions: Permissions): (r: seq<string>)
    ensures PermissionsFor(action, permissions).Success? ==> r == PermissionsFor(action, permissions).value
    ensures PermissionsFor(action, permissions).Failure? ==> r == []
  {
    if permissions.None? then [] else HandlersFor(action, permissions.value).GetOr([])
  }

  /** The per-type lists, in order, or the first failure. */
  function AllPermissionsFor(action: string, types: seq<Permissions>): (r: Result<seq<seq<string>>, Raised>)
    ensures r.Success? <==> forall k :: 0 <= k < |types| ==> PermissionsFor(action, types[k]).Success?
    ensures r.Success? ==> |r.value| == |types|
    ensures r.Success? ==> forall k :: 0 <= k < |types| ==> r.value[k] == PermissionsFor(action, types[k]).value
  {
    if |types| == 0 then Success([])
    else
      var first := PermissionsFor(action, types[0]);
      var rest := AllPermissionsFor(action, types[1..]);
      assert forall k :: 1 <= k < |types| ==> types[k] == types[1..][k - 1];
      if first.Failure? then Failure(first.error)
      else if rest.Failure? then Failure(rest.error)
      else Success([first.value] + rest.value)
  }

  /** `inject { |result, list| result + list }` without a seed, on a non-empty list. */
  function Concat(lists: seq<seq<string>>): (r: seq<string>)
    ensures forall x :: x in r <==> exists k :: 0 <= k < |lists| && x in lists[k]
  {
    if |lists| == 0 then []
    else
      var rest := Concat(lists[1..]);
      assert forall k :: 1 <= k < |lists| ==> lists[k] == lists[1..][k - 1];
      assert forall k :: 0 <= k < |lists| - 1 ==> lists[1..][k] == lists[k + 1];
      lists[0] + rest
  }

  /** `merged_permissions_for`: the handlers of every initiative type of the
      organization, each once; with no types the seedless inject gives nil and
      `uniq` raises. */
  function MergedPermissionsFor(action: string, types: seq<Permissions>): (r: Result<seq<string>, Raised>)
    ensures |types| == 0 ==> r.Failure?
    ensures |types| > 0 ==> (r.Success? <==> forall k :: 0 <= k < |types| ==> PermissionsFor(action, types[k]).Success?)
    ensures r.Success? ==> RubyCore.NoDuplicates(r.value)
    ensures r.Success? ==> forall h :: h in r.value <==>
              exists k :: 0 <= k < |types| && h in PermissionsFor(action, types[k]).value
  {
    if |types| == 0 then Failure(NoMethodError)
    else
      var lists := AllPermissionsFor(action, types);
      if lists.Failure? then Failure(lists.error) else Success(RubyCore.Uniq(Concat(lists.value)))
  }

  // ---------------------------------------------------------------------
  // any_initiative_types_authorized?

  /** What the seedless `inject` can answer: nil, the first type object itself
      (truthy), or the boolean of the last `&&`. */
  datatype Answer = NilAnswer | FirstType | Bool(b: bool)

  predicate Truthy(a: Answer) {
    a == FirstType || a == Bool(true)
  }

  /** `result && authorized?` folded over the later types. */
  function InjectAnd(acc: Answer, authorized: seq<bool>): Answer
    decreases |authorized|
  {
    if |authorized| == 0 then acc
    else InjectAnd(if Truthy(acc) then Bool(authorized[0]) else acc, authorized[1..])
  }

  /** The fold is truthy exactly when it starts truthy and every later answer is yes. */
  lemma {:induction false} InjectAndTruthy(acc: Answer, authorized: seq<bool>)
    ensures Truthy(InjectAnd(acc, authorized)) <==>
              Truthy(acc) && forall k :: 0 <= k < |authorized| ==> authorized[k]
    decreases |authorized|
  {
    if |authorized| > 0 {
      InjectAndTruthy(if Truthy(acc) then Bool(authorized[0]) else acc, authorized[1..]);
      assert forall k :: 1 <= k < |authorized| ==> authorized[k] == authorized[1..][k - 1];
    }
  }

  /** `any_initiative_types_authorized?` as written: `authorized[k]` is whether
      the current user may create initiatives of the k-th type. */
  function AnyInitiativeTypesAuthorized(hasCurrentUser: bool, authorized: seq<bool>): Answer {
    if !hasCurrentUser || |authorized| == 0 then NilAnswer
    else InjectAnd(FirstType, authorized[1..])
  }

  /** As written, the answer is nil without a user or without types, the first
      type is never checked, and the answer is truthy exactly when every later
      type is authorized. */
  lemma AnyInitiativeTypesAuthorizedMeaning(hasCurrentUser: bool, authorized: seq<bool>)
    ensures !hasCurrentUser ==> AnyInitiativeTypesAuthorized(hasCurrentUser, authorized) == NilAnswer
    ensures |authorized| == 0 ==> AnyInitiativeTypesAuthorized(hasCurrentUser, authorized) == NilAnswer
    ensures Truthy(AnyInitiativeTypesAuthorized(hasCurrentUser, authorized)) <==>
              hasCurrentUser && |authorized| > 0 && forall k :: 1 <= k < |authorized| ==> authorized[k]
  {
    if hasCurrentUser && |authorized| > 0 {
      InjectAndTruthy(FirstType, authorized[1..]);
      assert forall k :: 1 <= k < |authorized| ==> authorized[k] == authorized[1..][k - 1];
    }
  }

  /** A user who may not create initiatives of the only type is still told yes. */
  lemma FirstTypeNotChecked()
    ensures Truthy(AnyInitiativeTypesAuthorized(true, [false]))
  {
  }

  /** As evidently intended: the fold starts from true, so every type is checked. */
  function AnyInitiativeTypesAuthorizedCorrected(hasCurrentUser: bool, authorized: seq<bool>): (a: Answer)
    ensures Truthy(a) <==> hasCurrentUser && forall k :: 0 <= k < |authorized| ==> authorized[k]
  {
    InjectAndTruthy(Bool(true), authorized);
    if !hasCurrentUser then NilAnswer else InjectAnd(Bool(true), authorized)
  }
}
