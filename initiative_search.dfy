/** The public search of initiatives
    (decidim-initiatives/app/services/decidim/initiatives/initiative_search.rb).
    A query is the sequence of initiative rows it would return, in order;
    every `where` is a selection from it.  The rows carry what the filters
    read, including the result of the model scopes (`accepted`, `open`,
    ...) that the states filter combines, which are defined outside this
    model. */
module InitiativeSearch {
  import opened Wrappers
  import RubyCore

  /** The model scopes the states filter uses. */
  datatype StateScope =
    | Accepted | Rejected | Open | Closed | Answered
    | PublishedScope | Classified | Examinated | Debatted

  /** An initiative row joined with what the filters look at: its scoped type
      (`scopedTypeId`), that type scope's scope (`scopeId`, nil for the global
      scope) and the scope's `part_of` list (ignored for the global scope,
      see `PartOfList`), the title and description in the
      current locale (nil when there is no translation for it) and the
      author's name and nickname. */
  datatype Initiative = Initiative(
    id: nat,
    organization: nat,
    state: string,
    publishedAt: Option<int>,
    authorId: nat,
    scopedTypeId: nat,
    scopeId: Option<nat>,
    scopePartOf: seq<int>,
    areaId: Option<nat>,
    inScopes: set<StateScope>,
    title: Option<string>,
    description: Option<string>,
    authorName: string,
    authorNickname: string)

  /** An `InitiativesTypeScope` row: its id and the type it belongs to. */
  datatype TypeScopeRow = TypeScopeRow(id: nat, typeId: nat)

  /** A request parameter: a single value (possibly nil) or a list of them. */
  datatype Param = Value(value: Option<string>) | Many(items: seq<Param>)

  // ---------------------------------------------------------------------
  // base_query

  predicate InBaseQuery(organization: Option<nat>, users: set<nat>, i: Initiative) {
    organization == Some(i.organization) &&
    i.state != "created" && i.state != "validating" &&
    i.publishedAt.Some? &&
    i.authorId in users
  }

  /** `base_query`: the published initiatives of the organization that are past
      the `created` and `validating` states and whose author row exists (the
      inner join). */
  function BaseQuery(all: seq<Initiative>, organization: Option<nat>, users: set<nat>): (r: seq<Initiative>)
    ensures forall i :: i in r <==> i in all && InBaseQuery(organization, users, i)
    ensures multiset(r) <= multiset(all)
  {
    RubyCore.Select(all, i => InBaseQuery(organization, users, i))
  }

  /** Without an organization nothing is found. */
  lemma {:induction false} NoOrganizationNothingFound(all: seq<Initiative>, users: set<nat>)
    ensures BaseQuery(all, None, users) == []
  {
    if |all| > 0 {
      NoOrganizationNothingFound(all[1..], users);
    }
  }

  // ---------------------------------------------------------------------
  // search_search_text

  /** `ILIKE '%text%'` read as containment: `text` occurs in `s`. */
  predicate Contains(s: string, text: string) {
    exists k :: 0 <= k <= |s| && text <= s[k..]
  }

  predicate MatchesText(text: string, i: Initiative) {
    (i.title.Some? && Contains(i.title.value, text)) ||
    (i.description.Some? && Contains(i.description.value, text)) ||
    Contains(RubyCore.Numeral(i.id), text) ||
    Contains(i.authorName, text) || Contains(i.authorNickname, text)
  }

  /** `search_search_text`: the initiatives whose title or description in the
      current locale, id, or author's name or nickname contains the text. */
  function SearchText(query: seq<Initiative>, text: string): (r: seq<Initiative>)
    ensures forall i :: i in r <==> i in query && MatchesText(text, i)
    ensures multiset(r) <= multiset(query)
  {
    RubyCore.Select(query, i => MatchesText(text, i))
  }

  /** An empty text finds every initiative of the query, in order: its id is
      never NULL. */
  lemma {:induction false} EmptyTextFindsAll(query: seq<Initiative>)
    ensures SearchText(query, "") == query
  {
    if |query| > 0 {
      assert "" <= RubyCore.Numeral(query[0].id)[0..];
      EmptyTextFindsAll(query[1..]);
    }
  }

  /** Searching for an initiative's id finds it. */
  lemma IdTextFindsInitiative(query: seq<Initiative>, i: Initiative)
    requires i in query
    ensures i in SearchText(query, RubyCore.Numeral(i.id))
  {
    var n := RubyCore.Numeral(i.id);
    assert n <= n[0..];
  }

  // ---------------------------------------------------------------------
  // type_ids, scope_ids, area_ids

  /** `Array#flatten` of a parameter. */
  function Flatten(p: Param): seq<Option<string>>
    decreases p
  {
    match p
    case Value(v) => [v]
    case Many(items) => FlattenAll(items)
  }

  function FlattenAll(ps: seq<Param>): seq<Option<string>>
    decreases ps
  {
    if |ps| == 0 then [] else Flatten(ps[0]) + FlattenAll(ps[1..])
  }

  /** `[type_id].flatten` and `[scope_id].flatten`. */
  function IdList(p: Param): seq<Option<string>> {
    Flatten(Many([p]))
  }

  /** A scalar becomes a one-element list. */
  lemma IdListOfScalar(v: Option<string>)
    ensures IdList(Value(v)) == [v]
  {
    assert [Value(v)][1..] == [];
    assert FlattenAll([Value(v)]) == Flatten(Value(v)) + FlattenAll([]);
  }

  /** A list of lists is flattened, in order. */
  lemma {:induction false} FlattenAllAppend(a: seq<Param>, b: seq<Param>)
    ensures FlattenAll(a + b) == FlattenAll(a) + FlattenAll(b)
  {
    if |a| > 0 {
      assert (a + b)[0] == a[0];
      assert (a + b)[1..] == a[1..] + b;
      FlattenAllAppend(a[1..], b);
    } else {
      assert a + b == b;
    }
  }

  lemma IdListOfList(items: seq<Param>)
    ensures IdList(Many(items)) == FlattenAll(items)
  {
    assert FlattenAll([Many(items)]) == Flatten(Many(items)) + FlattenAll([]);
  }

  /** Values only: a flat list is returned as it is. */
  function Values(vs: seq<Option<string>>): (r: seq<Param>)
    ensures |r| == |vs|
  {
    if |vs| == 0 then [] else [Value(vs[0])] + Values(vs[1..])
  }

  lemma {:induction false} FlattenFlat(vs: seq<Option<string>>)
    ensures IdList(Many(Values(vs))) == vs
  {
    IdListOfList(Values(vs));
    FlattenValues(vs);
  }

  lemma {:induction false} FlattenValues(vs: seq<Option<string>>)
    ensures FlattenAll(Values(vs)) == vs
  {
    if |vs| > 0 {
      FlattenValues(vs[1..]);
      assert Values(vs)[1..] == Values(vs[1..]);
    }
  }

  /** Every id a list flattens to is the flattening of one of its elements. */
  lemma {:induction false} FlattenAllMembers(ps: seq<Param>, x: Option<string>)
    ensures x in FlattenAll(ps) <==> exists p :: p in ps && x in Flatten(p)
  {
    if |ps| > 0 {
      FlattenAllMembers(ps[1..], x);
      assert FlattenAll(ps) == Flatten(ps[0]) + FlattenAll(ps[1..]);
      if x in Flatten(ps[0]) {
        assert ps[0] in ps;
      } else if x in FlattenAll(ps[1..]) {
        var p :| p in ps[1..] && x in Flatten(p);
        assert p in ps;
      } else {
        forall p | p in ps
          ensures x !in Flatten(p)
        {
          assert p == ps[0] || p in ps[1..];
        }
      }
    }
  }

  /** The fragments of `split("_")` on a string id, as non-nil ids. */
  function Fragments(s: string): (r: seq<Option<string>>)
    ensures |r| == |RubyCore.Split(s, '_')|
    ensures forall x :: x in r <==> x.Some? && x.value in RubyCore.Split(s, '_')
  {
    var parts := RubyCore.Split(s, '_');
    var r := seq(|parts|, k requires 0 <= k < |parts| => Some(parts[k]));
    forall x: Option<string> | x.Some? && x.value in parts
      ensures x in r
    {
      var k :| 0 <= k < |parts| && parts[k] == x.value;
      assert r[k] == x;
    }
    r
  }

  /** ActiveSupport's `Array#split("_")` on a nested list, flattened: the
      elements equal to "_" are the separators, every other element is kept
      and flattened, and its own strings are not split. */
  function SplitFlat(items: seq<Param>): (r: seq<Option<string>>)
    ensures forall x :: x in r <==> exists q :: q in items && q != Value(Some("_")) && x in Flatten(q)
  {
    var kept := RubyCore.RemoveAll(items, Value(Some("_")));
    forall x ensures x in FlattenAll(kept) <==> exists q :: q in items && q != Value(Some("_")) && x in Flatten(q) {
      FlattenAllMembers(kept, x);
    }
    FlattenAll(kept)
  }

  /** The ids one element of `area_id` contributes to `area_ids`: a string is
      split at "_", a list is split by ActiveSupport's `Array#split`, and nil
      has no `split`. */
  function ItemIds(p: Param): (r: Result<seq<Option<string>>, QueryError>)
    ensures r.Failure? <==> p == Value(None)
    ensures r.Failure? ==> r.error == NoMethodError
    ensures p.Value? && p.value.Some? ==>
              r.Success? && forall x :: x in r.value <==> x.Some? && x.value in RubyCore.Split(p.value.value, '_')
    ensures p.Many? ==>
              r.Success? && forall x :: x in r.value <==>
                exists q :: q in p.items && q != Value(Some("_")) && x in Flatten(q)
  {
    match p
    case Value(None) => Failure(NoMethodError)
    case Value(Some(s)) => Success(Fragments(s))
    case Many(items) => Success(SplitFlat(items))
  }

  /** `map { |id| id.split("_") }.flatten` over the elements of a list. */
  function ItemsIds(items: seq<Param>): (r: Result<seq<Option<string>>, QueryError>)
    ensures r.Success? <==> Value(None) !in items
    ensures r.Failure? ==> r.error == NoMethodError
    ensures r.Success? ==>
              forall x :: x in r.value <==> exists p :: p in items && ItemIds(p).Success? && x in ItemIds(p).value
  {
    if |items| == 0 then Success([])
    else
      assert forall p :: p in items <==> p == items[0] || p in items[1..];
      match ItemIds(items[0])
      case Failure(e) => Failure(e)
      case Success(first) =>
        match ItemsIds(items[1..])
        case Failure(e) => Failure(e)
        case Success(rest) => Success(first + rest)
  }

  /** `area_ids`: every id the elements of `area_id` split into, each once.
      The parameter is not wrapped in a list first, so `map` on a single value
      raises NoMethodError, and so does `split` on a nil element. */
  function AreaIds(areaId: Param): (r: Result<seq<Option<string>>, QueryError>)
    ensures r.Success? <==> areaId.Many? && Value(None) !in areaId.items
    ensures r.Failure? ==> r.error == NoMethodError
    ensures r.Success? ==> RubyCore.NoDuplicates(r.value)
    ensures r.Success? ==>
              forall x :: x in r.value <==> exists p :: p in areaId.items && ItemIds(p).Success? && x in ItemIds(p).value
    ensures r.Success? && (forall p :: p in areaId.items ==> p.Value?) ==>
              forall x :: x in r.value ==> x.Some? && '_' !in x.value
  {
    if areaId.Value? then Failure(NoMethodError)
    else
      match ItemsIds(areaId.items)
      case Failure(e) => Failure(e)
      case Success(ids) => Success(RubyCore.Uniq(ids))
  }

  /** A one-element list nested in `area_id` gives its element as it is: its
      string is not split at underscores, and a nil stays nil. */
  lemma NestedAreaId(v: Option<string>)
    requires v != Some("_")
    ensures AreaIds(Many([Many([Value(v)])])) == Success([v])
  {
    var inner := [Value(v)];
    assert RubyCore.RemoveAll(inner, Value(Some("_"))) == inner by {
      assert inner[..0] == [];
    }
    assert FlattenAll(inner) == [v] by {
      assert inner[1..] == [];
    }
    assert ItemIds(Many(inner)) == Success([v]);
    assert ItemsIds([Many(inner)]) == Success([v]) by {
      assert [Many(inner)][1..] == [];
      assert [v] + [] == [v];
    }
    RubyCore.UniqOfDistinct([v]);
  }

  lemma NestedAreaIdExamples()
    ensures AreaIds(Many([Many([Value(Some("3"))])])) == Success([Some("3")])
    ensures AreaIds(Many([Many([Value(None)])])) == Success([None])
    ensures AreaIds(Many([Many([Value(Some("1_2"))])])) == Success([Some("1_2")])
  {
    NestedAreaId(Some("3"));
    NestedAreaId(None);
    NestedAreaId(Some("1_2"));
  }

  // ---------------------------------------------------------------------
  // Casting the ids

  /** How an id string binds to an integer column: `to_i`; nil binds as
      NULL, which no type id of the model equals. */
  function CastId(o: Option<string>): Option<int> {
    if o.Some? then Some(RubyCore.ToI(o.value)) else None
  }

  predicate IdListed(ids: seq<Option<string>>, n: int) {
    exists k :: 0 <= k < |ids| && CastId(ids[k]) == Some(n)
  }

  const All := "all"

  // ---------------------------------------------------------------------
  // search_type_id

  predicate OfListedType(typeScopes: seq<TypeScopeRow>, ids: seq<Option<string>>, i: Initiative) {
    exists ts :: ts in typeScopes && ts.id == i.scopedTypeId && IdListed(ids, ts.typeId)
  }

  /** `search_type_id`: the initiatives whose scoped type belongs to one of the
      listed types; the query as it is when "all" is listed. */
  function SearchType(query: seq<Initiative>, typeScopes: seq<TypeScopeRow>, typeId: Param): (r: seq<Initiative>)
    ensures Some(All) in IdList(typeId) ==> r == query
    ensures Some(All) !in IdList(typeId) ==>
              forall i :: i in r <==> i in query && OfListedType(typeScopes, IdList(typeId), i)
  {
    var ids := IdList(typeId);
    if Some(All) in ids then query
    else RubyCore.Select(query, i => OfListedType(typeScopes, ids, i))
  }

  // ---------------------------------------------------------------------
  // search_author

  /** `search_author`: only "myself" with a signed-in user filters, to that
      user's initiatives. */
  function SearchAuthor(query: seq<Initiative>, author: Option<string>, currentUser: Option<nat>): (r: seq<Initiative>)
    ensures !(author == Some("myself") && currentUser.Some?) ==> r == query
    ensures author == Some("myself") && currentUser.Some? ==>
              forall i :: i in r <==> i in query && i.authorId == currentUser.value
  {
    if author == Some("myself") && currentUser.Some? then
      RubyCore.Select(query, (i: Initiative) => i.authorId == currentUser.value)
    else query
  }

  // ---------------------------------------------------------------------
  // search_scope_id

  /** The SQL conditions `search_scope_id` joins with OR. */
  datatype Condition = GlobalScope | PartOf

  datatype QueryError = WrongNumberOfBindVariables | NoMethodError

  /** Ruby truthiness of a parameter value. */
  predicate AnyTruthy(ids: seq<Option<string>>) {
    exists k :: 0 <= k < |ids| && ids[k].Some?
  }

  function Repeat(c: Condition, n: nat): (r: seq<Condition>)
    ensures |r| == n && forall k :: 0 <= k < n ==> r[k] == c
  {
    if n == 0 then [] else [c] + Repeat(c, n - 1)
  }

  function ToIs(ids: seq<Option<string>>): (r: seq<int>)
    ensures |r| == |ids|
    ensures forall k :: 0 <= k < |ids| ==> r[k] == RubyCore.NilableToI(ids[k])
  {
    if |ids| == 0 then [] else [RubyCore.NilableToI(ids[0])] + ToIs(ids[1..])
  }

  /** The conditions `search_scope_id` joins with OR and the values it binds:
      the IS NULL condition when "global" was deleted, then one ANY condition per
      remaining id when one of them is truthy; one `to_i` per remaining id. */
  function ScopeConditionsOf(scopeIds: seq<Option<string>>): (seq<Condition>, seq<int>) {
    var clean := RubyCore.RemoveAll(scopeIds, Some("global"));
    ((if Some("global") in scopeIds then [GlobalScope] else []) +
     (if AnyTruthy(clean) then Repeat(PartOf, |clean|) else []),
     ToIs(clean))
  }

  /** The same, built as `search_scope_id` does: "global" deleted from the list
      in place, the conditions appended with `<<` and `concat`. */
  method ScopeConditions(scopeIds: seq<Option<string>>) returns (conditions: seq<Condition>, binds: seq<int>)
    ensures (conditions, binds) == ScopeConditionsOf(scopeIds)
  {
    var cleanScopeIds := scopeIds;
    var deleted := Some("global") in cleanScopeIds;
    cleanScopeIds := RubyCore.RemoveAll(cleanScopeIds, Some("global"));
    conditions := [];
    if deleted {
      conditions := conditions + [GlobalScope];
    }
    ghost var global := conditions;
    assert global == if Some("global") in scopeIds then [GlobalScope] else [];
    if AnyTruthy(cleanScopeIds) {
      conditions := conditions + Repeat(PartOf, |cleanScopeIds|);
    } else {
      assert conditions == global + [];
    }
    binds := ToIs(cleanScopeIds);
  }

  function Placeholders(conditions: seq<Condition>): (n: nat)
    ensures n <= |conditions|
  {
    if |conditions| == 0 then 0
    else (if conditions[0] == PartOf then 1 else 0) + Placeholders(conditions[1..])
  }

  /** Whether a row satisfies the OR of the conditions, each `?` taking the
      next bind value. */
  predicate Satisfies(conditions: seq<Condition>, binds: seq<int>, i: Initiative) {
    if |conditions| == 0 then false
    else if conditions[0] == GlobalScope then
      i.scopeId.None? || Satisfies(conditions[1..], binds, i)
    else
      if |binds| == 0 then Satisfies(conditions[1..], binds, i)
      else binds[0] in PartOfList(i) || Satisfies(conditions[1..], binds[1..], i)
  }

  /** `decidim_scopes.part_of` as the LEFT JOIN sees it: NULL, so no
      `? = ANY(...)` holds, for a row of the global scope. */
  function PartOfList(i: Initiative): seq<int> {
    if i.scopeId.None? then [] else i.scopePartOf
  }

  /** `where(conditions.join(" OR "), *binds)`: a blank condition leaves the
      query as it is. A statement with `?` placeholders raises when the bind
      count differs from theirs; one without placeholders is formatted with
      `%`, which ignores surplus values. */
  function Where(query: seq<Initiative>, conditions: seq<Condition>, binds: seq<int>): (r: Result<seq<Initiative>, QueryError>)
    ensures conditions == [] ==> r == Success(query)
    ensures conditions != [] && 0 < Placeholders(conditions) != |binds| ==> r == Failure(WrongNumberOfBindVariables)
    ensures conditions != [] && (Placeholders(conditions) == 0 || Placeholders(conditions) == |binds|) ==>
              r.Success? && forall i :: i in r.value <==> i in query && Satisfies(conditions, binds, i)
  {
    if conditions == [] then Success(query)
    else if 0 < Placeholders(conditions) != |binds| then Failure(WrongNumberOfBindVariables)
    else Success(RubyCore.Select(query, i => Satisfies(conditions, binds, i)))
  }

  /** `search_scope_id`: the query as it is when "all" is listed, otherwise the
      rows the scope conditions select; it never raises. */
  function SearchScope(query: seq<Initiative>, scopeId: Param): (r: Result<seq<Initiative>, QueryError>)
    ensures r.Success?
    ensures Some(All) in IdList(scopeId) ==> r == Success(query)
  {
    var ids := IdList(scopeId);
    if Some(All) in ids then Success(query)
    else
      var (conditions, binds) := ScopeConditionsOf(ids);
      ScopeConditionsShape(ids);
      Where(query, conditions, binds)
  }

  lemma PlaceholdersAppend(a: seq<Condition>, b: seq<Condition>)
    ensures Placeholders(a + b) == Placeholders(a) + Placeholders(b)
  {
    if |a| > 0 {
      assert (a + b)[1..] == a[1..] + b;
      PlaceholdersAppend(a[1..], b);
    } else {
      assert a + b == b;
    }
  }

  lemma PlaceholdersRepeat(n: nat)
    ensures Placeholders(Repeat(PartOf, n)) == n
  {
    if n > 0 {
      assert Repeat(PartOf, n)[1..] == Repeat(PartOf, n - 1);
      PlaceholdersRepeat(n - 1);
    }
  }

  /** The shape of the scope conditions: "global" gives the one IS NULL
      condition, every other listed id one ANY condition (when any of them is
      a value) and one bind value. */
  lemma ScopeConditionsShape(scopeIds: seq<Option<string>>)
    ensures var (conditions, binds) := ScopeConditionsOf(scopeIds);
            var clean := RubyCore.RemoveAll(scopeIds, Some("global"));
            (GlobalScope in conditions <==> Some("global") in scopeIds) &&
            |binds| == |clean| &&
            (AnyTruthy(clean) ==> Placeholders(conditions) == |binds|) &&
            (!AnyTruthy(clean) ==> Placeholders(conditions) == 0)
  {
    var clean := RubyCore.RemoveAll(scopeIds, Some("global"));
    var g: seq<Condition> := if Some("global") in scopeIds then [GlobalScope] else [];
    var p: seq<Condition> := if AnyTruthy(clean) then Repeat(PartOf, |clean|) else [];
    PlaceholdersAppend(g, p);
    PlaceholdersRepeat(|clean|);
    assert GlobalScope !in p;
  }

  /** Each remaining id condition, when the ids are all values, holds for a row
      whose scope has that id among its ancestors. */
  lemma {:induction false} SatisfiesPartOf(ids: seq<Option<string>>, i: Initiative)
    ensures Placeholders(Repeat(PartOf, |ids|)) == |ids|
    ensures Satisfies(Repeat(PartOf, |ids|), ToIs(ids), i) <==>
              exists k :: 0 <= k < |ids| && RubyCore.NilableToI(ids[k]) in PartOfList(i)
  {
    PlaceholdersRepeat(|ids|);
    if |ids| > 0 {
      assert Repeat(PartOf, |ids|)[1..] == Repeat(PartOf, |ids| - 1);
      assert ToIs(ids)[1..] == ToIs(ids[1..]);
      SatisfiesPartOf(ids[1..], i);
      PlaceholdersRepeat(|ids| - 1);
      assert forall k :: 0 < k < |ids| ==> ids[k] == ids[1..][k - 1];
      assert forall k :: 0 <= k < |ids| - 1 ==> ids[1..][k] == ids[k + 1];
    }
  }

  lemma SatisfiesGlobal(rest: seq<Condition>, binds: seq<int>, i: Initiative)
    ensures Satisfies([GlobalScope] + rest, binds, i) == (i.scopeId.None? || Satisfies(rest, binds, i))
  {
    assert ([GlobalScope] + rest)[1..] == rest;
  }

  /** Only values in the list: the ids left after removing "global" are all
      truthy. */
  lemma CleanTruthy(ids: seq<Option<string>>)
    requires forall k :: 0 <= k < |ids| ==> ids[k].Some?
    ensures var clean := RubyCore.RemoveAll(ids, Some("global"));
            (AnyTruthy(clean) <==> |clean| > 0) &&
            (|clean| == 0 && |ids| > 0 ==> Some("global") in ids)
  {
    var clean := RubyCore.RemoveAll(ids, Some("global"));
    if |clean| > 0 {
      assert clean[0] in ids;
    }
    if |ids| > 0 && Some("global") !in ids {
      assert ids[0] in clean;
    }
  }

  /** The predicate the scope filter stands for. */
  predicate InListedScope(ids: seq<Option<string>>, i: Initiative) {
    var clean := RubyCore.RemoveAll(ids, Some("global"));
    (Some("global") in ids && i.scopeId.None?) ||
    exists k :: 0 <= k < |clean| && RubyCore.NilableToI(clean[k]) in PartOfList(i)
  }

  /** The rows the scope filter keeps: with a truthy id left after "global" is
      deleted, the listed-scope rows; with "global" and only nils, the
      global-scope rows; with neither, every row, since the condition is blank. */
  predicate ScopeFilterKeeps(ids: seq<Option<string>>, i: Initiative) {
    var clean := RubyCore.RemoveAll(ids, Some("global"));
    if AnyTruthy(clean) then InListedScope(ids, i)
    else if Some("global") in ids then i.scopeId.None?
    else true
  }

  /** Row by row, the scope conditions hold exactly for the rows the filter
      keeps, and their placeholders never disagree with the binds. */
  lemma ScopeConditionsHold(ids: seq<Option<string>>, i: Initiative)
    ensures var (conditions, binds) := ScopeConditionsOf(ids);
            var clean := RubyCore.RemoveAll(ids, Some("global"));
            (Placeholders(conditions) == 0 || Placeholders(conditions) == |binds|) &&
            (conditions == [] <==> !AnyTruthy(clean) && Some("global") !in ids) &&
            (conditions != [] ==> (Satisfies(conditions, binds, i) <==> ScopeFilterKeeps(ids, i)))
  {
    var clean := RubyCore.RemoveAll(ids, Some("global"));
    ScopeConditionsShape(ids);
    var p: seq<Condition> := if AnyTruthy(clean) then Repeat(PartOf, |clean|) else [];
    if AnyTruthy(clean) {
      SatisfiesPartOf(clean, i);
      assert |p| > 0;
    } else {
      assert p == [];
    }
    if Some("global") in ids {
      SatisfiesGlobal(p, ToIs(clean), i);
      assert ScopeConditionsOf(ids).0 == [GlobalScope] + p;
    } else {
      assert ScopeConditionsOf(ids).0 == [] + p;
      assert [] + p == p;
      assert !(Some("global") in ids && i.scopeId.None?);
    }
  }

  /** What the scope filter selects, for every list of ids without "all": the
      rows `ScopeFilterKeeps` names, in order; the filter never raises. */
  lemma ScopeFilterMeaning(query: seq<Initiative>, scopeId: Param)
    requires Some(All) !in IdList(scopeId)
    ensures SearchScope(query, scopeId).Success?
    ensures forall i :: i in SearchScope(query, scopeId).value <==>
              i in query && ScopeFilterKeeps(IdList(scopeId), i)
  {
    var ids := IdList(scopeId);
    var (conditions, binds) := ScopeConditionsOf(ids);
    ScopeConditionsShape(ids);
    forall i
      ensures conditions == [] ==> ScopeFilterKeeps(ids, i)
      ensures conditions != [] ==> (Satisfies(conditions, binds, i) <==> ScopeFilterKeeps(ids, i))
    {
      ScopeConditionsHold(ids, i);
    }
  }

  /** Given values only, the filter keeps the global-scope rows when "global"
      is listed and the rows under a listed scope. */
  lemma ScopeFilterOfValues(ids: seq<Option<string>>, i: Initiative)
    requires forall k :: 0 <= k < |ids| ==> ids[k].Some?
    requires ids != []
    ensures ScopeFilterKeeps(ids, i) <==> InListedScope(ids, i)
  {
    CleanTruthy(ids);
  }

  /** The id list of `["global", nil]`, and what is left once "global" is
      deleted from it. */
  lemma GlobalWithNilIds()
    ensures IdList(Many([Value(Some("global")), Value(None)])) == [Some("global"), None]
    ensures RubyCore.RemoveAll([Some("global"), None], Some("global")) == [None]
  {
    var ids := [Some("global"), None];
    IdListOfList([Value(Some("global")), Value(None)]);
    FlattenValues(ids);
    assert Values(ids) == [Value(Some("global")), Value(None)];
    assert ids == [Some("global")] + [None];
    assert ids[..1] == [Some("global")];
    assert RubyCore.RemoveAll(ids[..1], Some("global")) == [];
  }

  /** "global" with a nil beside it: the nil leaves a surplus bind, which the
      placeholder-free condition ignores, and the global-scope rows come back. */
lemma GlobalWithNilFindsGlobalScoped(query: seq<Initiative>)
    ensures var r := SearchScope(query, Many([Value(Some("global")), Value(None)]));
            r.Success? && forall i :: i in r.value <==> i in query && i.scopeId.None?
  {
    var ids := [Some("global"), None];
    GlobalWithNilIds();
    assert !AnyTruthy(RubyCore.RemoveAll(ids, Some("global")));
    forall i
      ensures ScopeFilterKeeps(ids, i) <==> i.scopeId.None?
    {
    }
    ScopeFilterMeaning(query, Many([Value(Some("global")), Value(None)]));
  }

  // ---------------------------------------------------------------------
  // search_area_id

  /** `where(decidim_area_id: ids)`: a nil id is `IS NULL`, every other id
      is compared after `to_i`. */
  predicate InListedArea(ids: seq<Option<string>>, i: Initiative) {
    if i.areaId.None? then None in ids
    else exists k :: 0 <= k < |ids| && ids[k].Some? && RubyCore.ToI(ids[k].value) == i.areaId.value
  }

  /** `search_area_id`: the initiatives in one of the listed areas; the query as
      it is when "all" is listed; what `area_ids` raises, it raises. */
  function SearchArea(query: seq<Initiative>, areaId: Param): (r: Result<seq<Initiative>, QueryError>)
    ensures r.Failure? <==> AreaIds(areaId).Failure?
    ensures r.Failure? ==> r.error == NoMethodError
    ensures AreaIds(areaId).Success? && Some(All) in AreaIds(areaId).value ==> r == Success(query)
    ensures AreaIds(areaId).Success? && Some(All) !in AreaIds(areaId).value ==>
              r.Success? && forall i :: i in r.value <==> i in query && InListedArea(AreaIds(areaId).value, i)
  {
    match AreaIds(areaId)
    case Failure(e) => Failure(e)
    case Success(ids) =>
      if Some(All) in ids then Success(query)
      else Success(RubyCore.Select(query, i => InListedArea(ids, i)))
  }

  /** `[[nil]]` as `area_id` filters on `decidim_area_id IS NULL`: exactly the
      initiatives without an area. */
  lemma NestedNilAreaFindsUnassigned(query: seq<Initiative>)
    ensures var r := SearchArea(query, Many([Many([Value(None)])]));
            r.Success? && forall i :: i in r.value <==> i in query && i.areaId.None?
  {
    NestedAreaId(None);
    forall i
      ensures InListedArea([None], i) <==> i.areaId.None?
    {
    }
  }

  /** A single area id, or nil, is not a list: the filter raises. */
  lemma ScalarAreaIdRaises(query: seq<Initiative>, v: Option<string>)
    ensures SearchArea(query, Value(v)) == Failure(NoMethodError)
  {
  }

  // ---------------------------------------------------------------------
  // states

  /** The parameter value naming each scope, and which parameter names it. */
  function ScopeName(s: StateScope): string {
    match s
    case Accepted => "accepted"
    case Rejected => "rejected"
    case Open => "open"
    case Closed => "closed"
    case Answered => "answered"
    case PublishedScope => "published"
    case Classified => "classified"
    case Examinated => "examinated"
    case Debatted => "debatted"
  }

  predicate FromCustomState(s: StateScope) {
    s in {PublishedScope, Classified, Examinated, Debatted}
  }

  /** A non-nil single value: a String, which has no `member?`. */
  predicate IsString(p: Param) {
    p.Value? && p.value.Some?
  }

  /** Whether `state&.member?` (or `custom_state&.member?`) selects the scope:
      nil selects nothing, and an array selects the name iff one of its
      elements is that string. */
  predicate Selects(state: Param, customState: Param, s: StateScope) {
    var param := if FromCustomState(s) then customState else state;
    param.Many? && Value(Some(ScopeName(s))) in param.items
  }

  /** The scopes selected by the `state` and `custom_state` parameters. */
  function SelectedScopes(state: Param, customState: Param): (r: set<StateScope>)
    ensures forall s :: s in r <==> Selects(state, customState, s)
  {
    set s: StateScope | Selects(state, customState, s)
  }

  /** The four custom states come from `custom_state`, the five others from
      `state`; nil parameters select nothing. */
  lemma SelectedScopesByParameter(state: Param, customState: Param)
    ensures state == Value(None) && customState == Value(None) ==> SelectedScopes(state, customState) == {}
    ensures Accepted in SelectedScopes(state, customState) <==>
              state.Many? && Value(Some("accepted")) in state.items
    ensures Answered in SelectedScopes(state, customState) <==>
              state.Many? && Value(Some("answered")) in state.items
    ensures Debatted in SelectedScopes(state, customState) <==>
              customState.Many? && Value(Some("debatted")) in customState.items
    ensures PublishedScope in SelectedScopes(state, customState) <==>
              customState.Many? && Value(Some("published")) in customState.items
    ensures (state.Many? && Value(Some("published")) in state.items) && customState == Value(None) ==>
              PublishedScope !in SelectedScopes(state, customState)
  {
  }

  predicate InSomeSelected(selected: set<StateScope>, i: Initiative) {
    exists s :: s in selected && s in i.inScopes
  }

  /** The block of the `states` union, as a value. */
  function InSelectedScope(state: Param, customState: Param): Initiative -> bool {
    i => InSomeSelected(SelectedScopes(state, customState), i)
  }

  /** `states`: a single string as `state` or `custom_state` makes
      `member?` raise; otherwise the union of the selected scopes of the
      query, where an unselected scope contributes `where(id: nil)`, which is
      nothing. */
  function States(query: seq<Initiative>, state: Param, customState: Param): (r: Result<seq<Initiative>, QueryError>)
    ensures r.Failure? <==> IsString(state) || IsString(customState)
    ensures r.Failure? ==> r.error == NoMethodError
    ensures r.Success? ==> forall i :: i in r.value <==> i in query && InSomeSelected(SelectedScopes(state, customState), i)
    ensures r.Success? ==> multiset(r.value) <= multiset(query)
  {
    if IsString(state) || IsString(customState) then Failure(NoMethodError)
    else Success(RubyCore.Select(query, InSelectedScope(state, customState)))
  }

  /** When no scope is selected and neither parameter is a string, the states
      filter finds nothing. */
  lemma {:induction false} NoSelectionNothingFound(query: seq<Initiative>, state: Param, customState: Param)
    requires !IsString(state) && !IsString(customState)
    requires SelectedScopes(state, customState) == {}
    ensures States(query, state, customState) == Success([])
  {
    if |query| > 0 {
      NoSelectionNothingFound(query[1..], state, customState);
    }
  }

  /** Two instances: nil parameters, and a name nested one array too deep,
      which `member?` does not find. */
  lemma NoSelectionExamples(query: seq<Initiative>)
    ensures States(query, Value(None), Value(None)) == Success([])
    ensures States(query, Many([Many([Value(Some("accepted"))])]), Value(None)) == Success([])
  {
    SelectedScopesByParameter(Value(None), Value(None));
    NoSelectionNothingFound(query, Value(None), Value(None));
    var nested := Many([Many([Value(Some("accepted"))])]);
    assert forall s :: !Selects(nested, Value(None), s);
    assert SelectedScopes(nested, Value(None)) == {};
    NoSelectionNothingFound(query, nested, Value(None));
  }

  /** Both the state and the custom-state search call `states`; the second
      call changes nothing. */
  lemma StatesIdempotent(query: seq<Initiative>, state: Param, customState: Param)
    ensures var r := States(query, state, customState);
            r.Success? ==> States(r.value, state, customState) == r
  {
    RubyCore.SelectIdempotent(query, InSelectedScope(state, customState));
  }

  /** Rows that are all in a selected scope are kept as they are. */
  lemma StatesKeepsSelected(rows: seq<Initiative>, state: Param, customState: Param)
    requires !IsString(state) && !IsString(customState)
    requires forall i :: i in rows ==> InSomeSelected(SelectedScopes(state, customState), i)
    ensures States(rows, state, customState) == Success(rows)
  {
    RubyCore.SelectAll(rows, InSelectedScope(state, customState));
  }
}
