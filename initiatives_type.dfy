/** Initiative types (decidim-initiatives/app/models/decidim/initiatives_type.rb):
    the signature types an initiative of the type may use, the presence
    validations, and the `before_update` hook that adds a global scope to a
    type restricted to global scopes. */
module InitiativesType {
  import opened Wrappers

  /** `enum signature_type: [:online, :offline, :any]`. */
  datatype SignatureType = Online | Offline | AnySignature

  function SignatureTypeName(t: SignatureType): string {
    match t
    case Online => "online"
    case Offline => "offline"
    case AnySignature => "any"
  }

  /** `allowed_signature_types_for_initiatives`: all three names for "any",
      otherwise the type's own name (`nil.to_s` is the empty string). */
  function AllowedSignatureTypes(signatureType: Option<SignatureType>): (r: seq<string>)
    ensures |r| >= 1
    ensures signatureType.Some? ==> SignatureTypeName(signatureType.value) in r
    ensures signatureType == Some(AnySignature) ==>
              forall t: SignatureType :: SignatureTypeName(t) in r
    ensures signatureType != Some(AnySignature) ==>
              |r| == 1 && (signatureType.None? ==> r == [""]) &&
              (signatureType.Some? ==> r == [SignatureTypeName(signatureType.value)])
  {
    if signatureType == Some(AnySignature) then ["online", "offline", "any"]
    else if signatureType.None? then [""]
    else [SignatureTypeName(signatureType.value)]
  }

  /** An `InitiativesTypeScope` record; a nil `scopeId` is the global scope. */
  datatype TypeScope = TypeScope(supportsRequired: int, scopeId: Option<nat>, typeId: nat)

  /** `scopes.sum(&:supports_required)`. */
  function TotalSupports(scopes: seq<TypeScope>): int {
    if |scopes| == 0 then 0
    else TotalSupports(scopes[..|scopes| - 1]) + scopes[|scopes| - 1].supportsRequired
  }

  /** The sum is additive over concatenation. */
  lemma {:induction false} TotalSupportsAppend(a: seq<TypeScope>, b: seq<TypeScope>)
    ensures TotalSupports(a + b) == TotalSupports(a) + TotalSupports(b)
  {
    if |b| > 0 {
      assert (a + b)[..|a + b| - 1] == a + b[..|b| - 1];
      TotalSupportsAppend(a, b[..|b| - 1]);
    } else {
      assert a + b == a;
    }
  }

  /** `missing_global_scope?` as written.  A collection of scope records never
      includes nil, so its third conjunct always holds: the predicate is true
      for every type with global scopes only and at least one scope. */
  predicate MissingGlobalScope(onlyGlobalScopeEnabled: bool, scopes: seq<TypeScope>) {
    onlyGlobalScopeEnabled && |scopes| > 0
  }

  predicate HasGlobalScope(scopes: seq<TypeScope>) {
    exists s :: s in scopes && s.scopeId.None?
  }

  /** `missing_global_scope?` as evidently intended: no scope of the type is the
      global one yet. */
  predicate MissingGlobalScopeIntended(onlyGlobalScopeEnabled: bool, scopes: seq<TypeScope>) {
    onlyGlobalScopeEnabled && |scopes| > 0 && !HasGlobalScope(scopes)
  }

  /** The record `update_global_scope` saves. */
  function GlobalScopeFor(id: nat, scopes: seq<TypeScope>): (s: TypeScope)
    ensures s.scopeId.None? && s.typeId == id
    ensures s.supportsRequired == TotalSupports(scopes)
  {
    TypeScope(TotalSupports(scopes), None, id)
  }

  /** With the hook as written, the next update adds another global scope, and
      that one requires twice the supports of the original scopes. */
  lemma HookFiresAgain(id: nat, scopes: seq<TypeScope>)
    requires MissingGlobalScope(true, scopes)
    ensures var once := scopes + [GlobalScopeFor(id, scopes)];
            MissingGlobalScope(true, once) &&
            GlobalScopeFor(id, once).supportsRequired == 2 * TotalSupports(scopes)
  {
    TotalSupportsAppend(scopes, [GlobalScopeFor(id, scopes)]);
    assert TotalSupports([GlobalScopeFor(id, scopes)]) == TotalSupports(scopes) by {
      assert [GlobalScopeFor(id, scopes)][..0] == [];
    }
  }

  /** With the intended condition, once the global scope is there the hook
      does not fire again. */
  lemma IntendedHookFiresOnce(id: nat, scopes: seq<TypeScope>)
    requires MissingGlobalScopeIntended(true, scopes)
    ensures !MissingGlobalScopeIntended(true, scopes + [GlobalScopeFor(id, scopes)])
  {
    assert GlobalScopeFor(id, scopes) in scopes + [GlobalScopeFor(id, scopes)];
  }

  datatype Attribute = SignatureTypeAttribute | Title | Description
  datatype Error = Blank(attribute: Attribute)

  /** The presence validations; a translated field is present when it holds
      at least one translation. */
  function Validate(signatureType: Option<SignatureType>, title: map<string, string>,
                    description: map<string, string>): (errs: seq<Error>)
    ensures errs == [] <==> signatureType.Some? && |title| > 0 && |description| > 0
    ensures Blank(SignatureTypeAttribute) in errs <==> signatureType.None?
    ensures Blank(Title) in errs <==> |title| == 0
    ensures Blank(Description) in errs <==> |description| == 0
  {
    (if signatureType.None? then [Blank(SignatureTypeAttribute)] else []) +
    (if |title| == 0 then [Blank(Title)] else []) +
    (if |description| == 0 then [Blank(Description)] else [])
  }

  class InitiativesType {
    const id: nat
    var signatureType: Option<SignatureType>
    var title: map<string, string>
    var description: map<string, string>
    var onlyGlobalScopeEnabled: bool
    /** The type's scope records, in creation order. */
    var scopes: seq<TypeScope>

    constructor (id: nat, signatureType: Option<SignatureType>, title: map<string, string>,
                 description: map<string, string>, onlyGlobalScopeEnabled: bool, scopes: seq<TypeScope>)
      ensures this.id == id && this.signatureType == signatureType
      ensures this.title == title && this.description == description
      ensures this.onlyGlobalScopeEnabled == onlyGlobalScopeEnabled && this.scopes == scopes
    {
      this.id := id;
      this.signatureType := signatureType;
      this.title := title;
      this.description := description;
      this.onlyGlobalScopeEnabled := onlyGlobalScopeEnabled;
      this.scopes := scopes;
    }

    /** `update_global_scope`: saves one more scope, the global one, requiring
        the sum of the supports the existing scopes require. */
    method UpdateGlobalScope()
      modifies this`scopes
      ensures scopes == old(scopes) + [GlobalScopeFor(id, old(scopes))]
    {
      var total := TotalSupports(scopes);
      scopes := scopes + [TypeScope(total, None, id)];
    }

    /** The `before_update` hook as written. */
    method BeforeUpdate()
      modifies this`scopes
      ensures MissingGlobalScope(onlyGlobalScopeEnabled, old(scopes)) ==>
                scopes == old(scopes) + [GlobalScopeFor(id, old(scopes))]
      ensures !MissingGlobalScope(onlyGlobalScopeEnabled, old(scopes)) ==> scopes == old(scopes)
      // the hook keeps firing: after it has run it would run again
      ensures MissingGlobalScope(onlyGlobalScopeEnabled, old(scopes)) ==>
                MissingGlobalScope(onlyGlobalScopeEnabled, scopes)
    {
      if MissingGlobalScope(onlyGlobalScopeEnabled, scopes) {
        UpdateGlobalScope();
      }
    }

    /** The `before_update` hook with the intended condition: it adds the global
        scope once, leaves the existing scopes as they are, and afterwards the
        type is no longer missing its global scope. */
    method BeforeUpdateCorrected()
      modifies this`scopes
      ensures MissingGlobalScopeIntended(onlyGlobalScopeEnabled, old(scopes)) ==>
                scopes == old(scopes) + [GlobalScopeFor(id, old(scopes))]
      ensures !MissingGlobalScopeIntended(onlyGlobalScopeEnabled, old(scopes)) ==> scopes == old(scopes)
      ensures !MissingGlobalScopeIntended(onlyGlobalScopeEnabled, old(scopes)) ||
              !MissingGlobalScopeIntended(onlyGlobalScopeEnabled, scopes)
    {
      if MissingGlobalScopeIntended(onlyGlobalScopeEnabled, scopes) {
        IntendedHookFiresOnce(id, scopes);
        UpdateGlobalScope();
      }
    }
  }
}
