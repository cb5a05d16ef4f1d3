/** The administrators' form for areas
    (decidim-admin/app/forms/decidim/admin/area_form.rb): the name and
    organization presence checks, the uniqueness of a name within an area
    type, the area type lookup and the colour format. */
module AreaForm {
  import opened Wrappers
  import RubyCore

  /** A stored area: its organization, translated name and area type. */
  datatype Area = Area(id: nat, organization: nat, name: map<string, string>, areaTypeId: Option<nat>)

  /** The submitted form. `organization` is the current organization (the form
      aliases `organization` to it) and `id` is nil for a new area. */
  datatype Form = Form(
    id: Option<nat>,
    name: map<string, string>,
    organization: Option<nat>,
    areaTypeId: Option<int>,
    color: Option<string>)

  datatype Attribute = Name | Organization | Color
  datatype ErrorKind = Blank | Taken | Invalid
  datatype Error = Error(attribute: Attribute, kind: ErrorKind)

  // ---------------------------------------------------------------------
  // The colour format: /#[0-9a-fA-F]{6}|#[0-9a-fA-F]{3}/i, unanchored

  predicate IsHex(c: char) {
    ('0' <= c <= '9') || ('a' <= c <= 'f') || ('A' <= c <= 'F')
  }

  /** A `#` at `k` followed by `n` hexadecimal digits. */
  predicate HashRunAt(s: string, k: int, n: nat) {
    0 <= k && k + 1 + n <= |s| && s[k] == '#' && forall j :: k + 1 <= j < k + 1 + n ==> IsHex(s[j])
  }

  /** What the regular expression accepts: one of its two alternatives
      somewhere in the string. */
  predicate ColorFormat(s: string) {
    exists k :: 0 <= k < |s| && (HashRunAt(s, k, 6) || HashRunAt(s, k, 3))
  }

  /** The regular expression run as a scan from the left. */
  function ColorMatches(s: string): bool {
    if |s| < 4 then false
    else (s[0] == '#' && IsHex(s[1]) && IsHex(s[2]) && IsHex(s[3])) || ColorMatches(s[1..])
  }

  /** The six-digit alternative never accepts what the three-digit one does not:
      a colour is valid iff some `#` is followed by three hexadecimal digits. */
  lemma SixDigitsSubsumed(s: string, k: int)
    requires HashRunAt(s, k, 6)
    ensures HashRunAt(s, k, 3)
  {
  }

  /** The scan accepts exactly the strings the regular expression does. */
  lemma {:induction false} ColorMatchesIff(s: string)
    ensures ColorMatches(s) <==> ColorFormat(s)
  {
    if |s| >= 4 {
      ColorMatchesIff(s[1..]);
      var t := s[1..];
      if s[0] == '#' && IsHex(s[1]) && IsHex(s[2]) && IsHex(s[3]) {
        assert HashRunAt(s, 0, 3);
      }
      if ColorFormat(t) {
        var k :| 0 <= k < |t| && (HashRunAt(t, k, 6) || HashRunAt(t, k, 3));
        if HashRunAt(t, k, 6) {
          SixDigitsSubsumed(t, k);
        }
        assert HashRunAt(s, k + 1, 3) by {
          forall j | k + 2 <= j < k + 5 ensures IsHex(s[j]) {
            assert s[j] == t[j - 1];
          }
        }
        assert ColorFormat(s);
      }
      if ColorFormat(s) {
        var k :| 0 <= k < |s| && (HashRunAt(s, k, 6) || HashRunAt(s, k, 3));
        if HashRunAt(s, k, 6) {
          SixDigitsSubsumed(s, k);
        }
        if k > 0 {
          assert HashRunAt(t, k - 1, 3) by {
            forall j | k <= j < k + 3 ensures IsHex(t[j]) {
              assert t[j] == s[j + 1];
            }
          }
          assert ColorFormat(t);
        } else {
          assert IsHex(s[1]) && IsHex(s[2]) && IsHex(s[3]);
        }
      }
    }
  }

  /** The match is not anchored: text around a colour does not matter. */
  lemma ColorUnanchored(before: string, color: string, after: string)
    requires HashRunAt(color, 0, 3)
    ensures ColorFormat(before + color + after)
  {
    var s := before + color + after;
    assert HashRunAt(s, |before|, 3) by {
      forall j | |before| <= j < |before| + 4 ensures s[j] == color[j - |before|] { }
    }
  }

  /** A few verdicts of the format. */
  lemma ColorExamples()
    ensures ColorMatches("#fff") && ColorMatches("#A1b2C3")
    ensures !ColorMatches("#12") && !ColorMatches("fff") && !ColorMatches("")
    ensures ColorMatches("red #abc")
  {
    assert "red #abc"[1..] == "ed #abc";
    assert "ed #abc"[1..] == "d #abc";
    assert "d #abc"[1..] == " #abc";
    assert " #abc"[1..] == "#abc";
  }

  /** The format check: a missing colour is read as the empty string. */
  function ColorValidation(color: Option<string>): (errs: seq<Error>)
    ensures errs == [] <==> color.Some? && ColorFormat(color.value)
    ensures errs != [] ==> errs == [Error(Color, Invalid)]
  {
    var s := color.GetOr("");
    ColorMatchesIff(s);
    if ColorMatches(s) then [] else [Error(Color, Invalid)]
  }

  // ---------------------------------------------------------------------
  // The area type and the name

  /** `area_type`: nil when no id is given, or when no area type has it. */
  function AreaType(areaTypeId: Option<int>, areaTypes: set<nat>): (t: Option<nat>)
    ensures areaTypeId.None? ==> t.None?
    ensures t.Some? <==> areaTypeId.Some? && areaTypeId.value >= 0 && areaTypeId.value as nat in areaTypes
    ensures t.Some? ==> t.value == areaTypeId.value
  {
    if areaTypeId.Some? && areaTypeId.value >= 0 && areaTypeId.value as nat in areaTypes
    then Some(areaTypeId.value as nat) else None
  }

  /** Another area of the organization with the same name and area type. */
  predicate Clashes(form: Form, areaTypes: set<nat>, a: Area) {
    form.organization.Some? && a.organization == form.organization.value &&
    a.name == form.name && a.areaTypeId == AreaType(form.areaTypeId, areaTypes) &&
    Some(a.id) != form.id
  }

  /** `name_uniqueness`. */
  function NameUniqueness(form: Form, areas: seq<Area>, areaTypes: set<nat>): (errs: seq<Error>)
    ensures form.organization.None? ==> errs == []
    ensures errs != [] ==> errs == [Error(Name, Taken)]
    ensures errs == [Error(Name, Taken)] <==> exists a :: a in areas && Clashes(form, areaTypes, a)
  {
    if form.organization.None? then []
    else if exists a :: a in areas && Clashes(form, areaTypes, a) then [Error(Name, Taken)]
    else []
  }

  /** An area never clashes with itself once it is stored, and an id given for
      a missing area type compares against the areas without a type. */
  lemma NameUniquenessEdges(form: Form, areas: seq<Area>, areaTypes: set<nat>)
    ensures form.id.Some? ==>
              forall a :: a in areas && a.id == form.id.value ==> !Clashes(form, areaTypes, a)
    ensures form.areaTypeId.Some? && form.areaTypeId.value >= 0 && form.areaTypeId.value as nat !in areaTypes ==>
              forall a :: a in areas && Clashes(form, areaTypes, a) ==> a.areaTypeId.None?
  {
  }

  /** `translatable_presence`: a non-blank translation for the default locale. */
  predicate NamePresent(name: map<string, string>, defaultLocale: string) {
    defaultLocale in name && !RubyCore.BlankString(name[defaultLocale])
  }

  /** The validations in the order they are declared; the logo checks are not
      part of this model. */
  function Validate(form: Form, areas: seq<Area>, areaTypes: set<nat>, defaultLocale: string): (errs: seq<Error>)
    ensures Error(Name, Blank) in errs <==> !NamePresent(form.name, defaultLocale)
    ensures Error(Organization, Blank) in errs <==> form.organization.None?
    ensures Error(Name, Taken) in errs <==> exists a :: a in areas && Clashes(form, areaTypes, a)
    ensures Error(Color, Invalid) in errs <==> !(form.color.Some? && ColorFormat(form.color.value))
    ensures errs == [] <==>
              NamePresent(form.name, defaultLocale) && form.organization.Some? &&
              (forall a :: a in areas ==> !Clashes(form, areaTypes, a)) &&
              form.color.Some? && ColorFormat(form.color.value)
  {
    (if NamePresent(form.name, defaultLocale) then [] else [Error(Name, Blank)]) +
    (if form.organization.None? then [Error(Organization, Blank)] else []) +
    NameUniqueness(form, areas, areaTypes) +
    ColorValidation(form.color)
  }
}
