/**
 * The profile record of src/pages/Profile.tsx, its completeness rule
 * (`isProfileComplete`), the single-field update (`updateProfile`), the
 * skill checkboxes and the row inserted for a user who has no profile yet.
 */
module Profiles {
  import opened Wrappers

  /** The keys of a row of the `profiles` table (`keyof Profile`). */
  datatype Field =
    | Id | UserId | FullName | Email | Phone | AvatarUrl | UserType | Career
    | University | Year | Profession | ExperienceYears | Gender | EntrepreneurType
    | ProjectName | ProjectDescription | ProjectSector | ProjectStage | TeamStatus
    | TeamSize | SupportAreas | IsTechnical | SeekingTechnical | TechnicalSkills
    | NonTechnicalSkills | SeekingTechnicalSkills | SeekingNonTechnicalSkills

  /** The value held under a key: text, number, boolean or list of text, each possibly null. */
  datatype Value =
    | Text(text: Option<string>)
    | Number(number: Option<int>)
    | Flag(flag: Option<bool>)
    | List(list: Option<seq<string>>)

  /** The column type of each key; `id` and `user_id` are never null. */
  predicate Fits(f: Field, v: Value) {
    match f
    case Id | UserId => v.Text? && v.text.Some?
    case Year | ExperienceYears | TeamSize => v.Number?
    case IsTechnical => v.Flag?
    case SupportAreas | TechnicalSkills | NonTechnicalSkills
      | SeekingTechnicalSkills | SeekingNonTechnicalSkills => v.List?
    case _ => v.Text?
  }

  /** Every key is present and holds a value of its column type. */
  predicate WellTyped(m: map<Field, Value>) {
    forall f: Field :: f in m && Fits(f, m[f])
  }

  /** A key's value in the all-null row: null of its column type, or `""` for the two keys. */
  function BlankValue(f: Field): (v: Value)
    ensures Fits(f, v)
  {
    match f
    case Id | UserId => Text(Some(""))
    case Year | ExperienceYears | TeamSize => Number(None)
    case IsTechnical => Flag(None)
    case SupportAreas | TechnicalSkills | NonTechnicalSkills
      | SeekingTechnicalSkills | SeekingNonTechnicalSkills => List(None)
    case _ => Text(None)
  }

  /** The all-null row (with empty keys), used as the witness that rows exist. */
  function BlankRow(): (m: map<Field, Value>)
    ensures WellTyped(m)
  {
    map f: Field :: BlankValue(f)
  }

  /** A row of the `profiles` table: a JavaScript object keyed by the columns. */
  type Profile = m: map<Field, Value> | WellTyped(m) witness BlankRow()

  /**
   * `updateProfile(field, value)`, that is `{ ...profile, [field]: value }`:
   * nothing happens while no profile is loaded; otherwise exactly the one key
   * changes.
   */
  function UpdateProfile(p: Option<Profile>, f: Field, v: Value): (r: Option<Profile>)
    requires Fits(f, v)
    ensures p.None? ==> r.None?
    ensures p.Some? ==>
      r.Some? && r.value[f] == v &&
      forall g :: g != f ==> r.value[g] == p.value[g]
  {
    if p.None? then None else Some(Assign(p.value, f, v))
  }

  /** `{ ...p, [f]: v }` on a loaded row. */
  function Assign(p: Profile, f: Field, v: Value): Profile
    requires Fits(f, v)
  {
    p[f := v]
  }

  /** `{ ...p, ...changes }`: every key of `changes` takes its value there, the rest keep theirs. */
  function Overlay(p: Profile, changes: map<Field, Value>): (r: Profile)
    requires forall f :: f in changes ==> Fits(f, changes[f])
    ensures forall f :: r[f] == if f in changes then changes[f] else p[f]
  {
    map f: Field :: if f in changes then changes[f] else p[f]
  }

  /** JavaScript truthiness of a column value (an array, even an empty one, is truthy). */
  predicate Truthy(v: Value) {
    match v
    case Text(o) => o.Some? && o.value != ""
    case Number(o) => o.Some? && o.value != 0
    case Flag(o) => o == Some(true)
    case List(o) => o.Some?
  }

  /** `value !== null`. */
  predicate NotNull(v: Value) {
    match v
    case Text(o) => o.Some?
    case Number(o) => o.Some?
    case Flag(o) => o.Some?
    case List(o) => o.Some?
  }

  /** `list && list.length > 0`. */
  predicate NonEmpty(v: Value) {
    v.List? && v.list.Some? && |v.list.value| > 0
  }

  /** `isProfileComplete(profile)`, written as the source writes it. */
  predicate IsProfileComplete(p: Option<Profile>) {
    if p.None? then false
    else
      var q := p.value;
      var baseFields :=
        Truthy(q[FullName]) && Truthy(q[UserType]) && Truthy(q[Gender]) &&
        Truthy(q[EntrepreneurType]) && Truthy(q[TeamStatus]) &&
        NotNull(q[IsTechnical]) && NotNull(q[SeekingTechnical]);
      var skillsComplete :=
        if Truthy(q[IsTechnical]) then NonEmpty(q[TechnicalSkills]) else NonEmpty(q[NonTechnicalSkills]);
      var seekingSkillsComplete :=
        if q[SeekingTechnical] == Text(Some("technical")) then NonEmpty(q[SeekingTechnicalSkills])
        else if q[SeekingTechnical] == Text(Some("non_technical")) then NonEmpty(q[SeekingNonTechnicalSkills])
        else true;
      if q[UserType] == Text(Some("universitario")) then
        baseFields && skillsComplete && seekingSkillsComplete &&
        Truthy(q[University]) && Truthy(q[Career]) && Truthy(q[Year])
      else if q[UserType] == Text(Some("no_universitario")) then
        baseFields && skillsComplete && seekingSkillsComplete &&
        Truthy(q[Profession]) && Truthy(q[ExperienceYears])
      else false
  }

  /** What a completeness rule asks of one key. */
  datatype Requirement =
    | Filled(field: Field)    // a truthy value
    | Listed(field: Field)    // a non-empty list
    | Present(field: Field)   // any value but null

  predicate Satisfies(p: Profile, req: Requirement) {
    match req
    case Filled(f) => Truthy(p[f])
    case Listed(f) => NonEmpty(p[f])
    case Present(f) => NotNull(p[f])
  }

  /** The two categories of user a profile can be complete for. */
  predicate KnownCategory(p: Profile) {
    p[UserType] == Text(Some("universitario")) || p[UserType] == Text(Some("no_universitario"))
  }

  /**
   * The requirements for a profile, by category: the shared keys, the own
   * skill list chosen by `is_technical`, the sought skill list chosen by
   * `seeking_technical`, and the keys of the user's category.
   */
  function Requirements(p: Profile): set<Requirement> {
    SharedRequirements() + OwnSkillRequirement(p) + SoughtSkillRequirement(p) + CategoryRequirements(p)
  }

  /** The keys every profile must fill. */
  function SharedRequirements(): set<Requirement> {
    {Filled(FullName), Filled(UserType), Filled(Gender), Filled(EntrepreneurType),
     Filled(TeamStatus), Present(IsTechnical), Present(SeekingTechnical)}
  }

  /** The user's own skill list, chosen by `is_technical`. */
  function OwnSkillRequirement(p: Profile): set<Requirement> {
    if Truthy(p[IsTechnical]) then {Listed(TechnicalSkills)} else {Listed(NonTechnicalSkills)}
  }

  /** The sought skill list, chosen by `seeking_technical` (none for any other value). */
  function SoughtSkillRequirement(p: Profile): set<Requirement> {
    if p[SeekingTechnical] == Text(Some("technical")) then {Listed(SeekingTechnicalSkills)}
    else if p[SeekingTechnical] == Text(Some("non_technical")) then {Listed(SeekingNonTechnicalSkills)}
    else {}
  }

  /** The keys of the user's category. */
  function CategoryRequirements(p: Profile): set<Requirement> {
    if p[UserType] == Text(Some("universitario")) then {Filled(University), Filled(Career), Filled(Year)}
    else if p[UserType] == Text(Some("no_universitario")) then {Filled(Profession), Filled(ExperienceYears)}
    else {}
  }

  /** The completeness rule as a table of requirements, all of which must hold. */
  predicate MeetsRequirements(p: Option<Profile>) {
    p.Some? && KnownCategory(p.value) &&
    forall req :: req in Requirements(p.value) ==> Satisfies(p.value, req)
  }

  /** `isProfileComplete` is exactly the requirement table above. */
  lemma IsProfileCompleteMeetsRequirements(p: Option<Profile>)
    ensures IsProfileComplete(p) <==> MeetsRequirements(p)
  {
    if p.Some? && KnownCategory(p.value) {
      if IsProfileComplete(p) {
        CompleteSatisfiesAll(p.value);
      } else {
        IncompleteMissesOne(p.value);
      }
    }
  }

  lemma CompleteSatisfiesAll(q: Profile)
    requires IsProfileComplete(Some(q))
    ensures forall req :: req in Requirements(q) ==> Satisfies(q, req)
  {
    forall req | req in SharedRequirements() ensures Satisfies(q, req) { }
    forall req | req in OwnSkillRequirement(q) ensures Satisfies(q, req) { }
    forall req | req in SoughtSkillRequirement(q) ensures Satisfies(q, req) { }
    forall req | req in CategoryRequirements(q) ensures Satisfies(q, req) { }
  }

  lemma IncompleteMissesOne(q: Profile)
    requires KnownCategory(q) && !IsProfileComplete(Some(q))
    ensures exists req :: req in Requirements(q) && !Satisfies(q, req)
  {
    var reqs := Requirements(q);
    if !Truthy(q[FullName]) { assert Filled(FullName) in reqs; }
    else if !Truthy(q[Gender]) { assert Filled(Gender) in reqs; }
    else if !Truthy(q[EntrepreneurType]) { assert Filled(EntrepreneurType) in reqs; }
    else if !Truthy(q[TeamStatus]) { assert Filled(TeamStatus) in reqs; }
    else if !NotNull(q[IsTechnical]) { assert Present(IsTechnical) in reqs; }
    else if !NotNull(q[SeekingTechnical]) { assert Present(SeekingTechnical) in reqs; }
    else if Truthy(q[IsTechnical]) && !NonEmpty(q[TechnicalSkills]) {
      assert Listed(TechnicalSkills) in reqs;
    } else if !Truthy(q[IsTechnical]) && !NonEmpty(q[NonTechnicalSkills]) {
      assert Listed(NonTechnicalSkills) in reqs;
    } else if q[SeekingTechnical] == Text(Some("technical")) && !NonEmpty(q[SeekingTechnicalSkills]) {
      assert Listed(SeekingTechnicalSkills) in reqs;
    } else if q[SeekingTechnical] == Text(Some("non_technical")) && !NonEmpty(q[SeekingNonTechnicalSkills]) {
      assert Listed(SeekingNonTechnicalSkills) in reqs;
    } else if q[UserType] == Text(Some("universitario")) {
      if !Truthy(q[University]) { assert Filled(University) in reqs; }
      else if !Truthy(q[Career]) { assert Filled(Career) in reqs; }
      else { assert Filled(Year) in reqs; }
    } else {
      if !Truthy(q[Profession]) { assert Filled(Profession) in reqs; }
      else { assert Filled(ExperienceYears) in reqs; }
    }
  }

  /** A non-university profile declaring 0 years of experience is incomplete, whatever else it holds. */
  lemma ZeroExperienceIsMissing(p: Profile)
    requires p[UserType] == Text(Some("no_universitario")) && p[ExperienceYears] == Number(Some(0))
    ensures !IsProfileComplete(Some(p))
  {
    IsProfileCompleteMeetsRequirements(Some(p));
    assert Filled(ExperienceYears) in Requirements(p);
  }

  /** `list.filter(s => s !== x)`: every other entry kept, as often as it occurs. */
  function Without(s: seq<string>, x: string): (r: seq<string>)
    ensures |r| <= |s| && x !in r
    ensures forall y :: y != x ==> (y in r <==> y in s)
    ensures multiset(r) == multiset(s)[x := 0]
    ensures x !in s ==> r == s
  {
    if s == [] then []
    else
      assert s == [s[0]] + s[1..];
      if s[0] == x then Without(s[1..], x)
      else [s[0]] + Without(s[1..], x)
  }

  /** Filtering keeps the order: filtering a concatenation filters each part. */
  lemma {:induction false} WithoutConcat(a: seq<string>, b: seq<string>, x: string)
    ensures Without(a + b, x) == Without(a, x) + Without(b, x)
    decreases |a|
  {
    if a == [] {
      assert a + b == b;
    } else {
      assert (a + b)[0] == a[0] && (a + b)[1..] == a[1..] + b;
      WithoutConcat(a[1..], b, x);
    }
  }

  /** How many sought skills of one kind may be selected. */
  const MaxSeekingSkills := 3

  /** The two sought-skill lists, chosen by the kind of co-founder sought. */
  function SeekingField(technical: bool): Field {
    if technical then SeekingTechnicalSkills else SeekingNonTechnicalSkills
  }

  /** The two own-skill lists. */
  function OwnSkillField(technical: bool): Field {
    if technical then TechnicalSkills else NonTechnicalSkills
  }

  /** The list shown by a checkbox group: the column, or `[]` when it is null. */
  function Current(p: Profile, f: Field): seq<string>
    requires Fits(f, List(None))
  {
    p[f].list.GetOr([])
  }

  /**
   * A click on the checkbox of `skill` in a sought-skill group: the box is
   * disabled while three other skills are selected; an unselected skill is
   * appended, a selected one filtered out.
   */
  function ClickSeekingSkill(p: Option<Profile>, technical: bool, skill: string): (r: Option<Profile>)
    ensures p.None? ==> r.None?
    ensures p.Some? ==>
      var f := SeekingField(technical);
      var cur := Current(p.value, f);
      r.Some? &&
      (forall g :: g != f ==> r.value[g] == p.value[g]) &&
      if skill !in cur && |cur| >= MaxSeekingSkills then r == p
      else
        var now := Current(r.value, f);
        now == (if skill in cur then Without(cur, skill) else cur + [skill]) &&
        (skill in now <==> skill !in cur) &&
        (forall other :: other != skill ==> (other in now <==> other in cur)) &&
        (|cur| <= MaxSeekingSkills ==> |now| <= MaxSeekingSkills)
  {
    if p.None? then None
    else
      var f := SeekingField(technical);
      var cur := Current(p.value, f);
      var isSelected := skill in cur;
      var canSelect := |cur| < MaxSeekingSkills || isSelected;
      if !canSelect then p
      else if !isSelected then UpdateProfile(p, f, List(Some(cur + [skill])))
      else UpdateProfile(p, f, List(Some(Without(cur, skill))))
  }

  /** A click on an own-skill checkbox: the same toggle, with no limit on the list. */
  function ClickOwnSkill(p: Option<Profile>, technical: bool, skill: string): (r: Option<Profile>)
    ensures p.None? ==> r.None?
    ensures p.Some? ==>
      var f := OwnSkillField(technical);
      var cur := Current(p.value, f);
      r.Some? &&
      (forall g :: g != f ==> r.value[g] == p.value[g]) &&
      var now := Current(r.value, f);
      now == (if skill in cur then Without(cur, skill) else cur + [skill]) &&
      (skill in now <==> skill !in cur) &&
      (forall other :: other != skill ==> (other in now <==> other in cur))
  {
    if p.None? then None
    else
      var f := OwnSkillField(technical);
      var cur := Current(p.value, f);
      if skill !in cur then UpdateProfile(p, f, List(Some(cur + [skill])))
      else UpdateProfile(p, f, List(Some(Without(cur, skill))))
  }

  /** A click on a sought-skill checkbox. */
  datatype Click = Click(technical: bool, skill: string)

  function ApplyClicks(p: Option<Profile>, clicks: seq<Click>): Option<Profile>
    decreases |clicks|
  {
    if clicks == [] then p
    else ApplyClicks(ClickSeekingSkill(p, clicks[0].technical, clicks[0].skill), clicks[1..])
  }

  /** Through any sequence of clicks, neither sought-skill list grows past three entries. */
  lemma {:induction false} SeekingSkillsStayWithinLimit(p: Profile, clicks: seq<Click>)
    requires |Current(p, SeekingTechnicalSkills)| <= MaxSeekingSkills
    requires |Current(p, SeekingNonTechnicalSkills)| <= MaxSeekingSkills
    ensures ApplyClicks(Some(p), clicks).Some?
    ensures |Current(ApplyClicks(Some(p), clicks).value, SeekingTechnicalSkills)| <= MaxSeekingSkills
    ensures |Current(ApplyClicks(Some(p), clicks).value, SeekingNonTechnicalSkills)| <= MaxSeekingSkills
    decreases |clicks|
  {
    if clicks != [] {
      var q := ClickSeekingSkill(Some(p), clicks[0].technical, clicks[0].skill);
      assert q.Some?;
      SeekingSkillsStayWithinLimit(q.value, clicks[1..]);
    }
  }

  /** The identity data of a signed-in user that the first profile row copies. */
  datatype Identity = Identity(
    userId: string,
    email: Option<string>,
    metadataFullName: Option<string>,
    metadataAvatarUrl: Option<string>)

  /** `x || ""` for a text that may be missing. */
  function OrEmpty(o: Option<string>): string {
    if o.Some? then o.value else ""
  }

  /**
   * The row inserted by `fetchProfile` when the user has none; `id` is the
   * key the store assigns. The columns the insert leaves out are null.
   */
  function InitialProfile(id: string, user: Identity): (p: Profile)
    ensures p[Id] == Text(Some(id)) && p[UserId] == Text(Some(user.userId))
    ensures p[TeamStatus] == Text(Some("buscando")) && p[UserType] == Text(Some("universitario"))
    ensures p[FullName] == Text(Some(OrEmpty(user.metadataFullName)))
    ensures p[Email] == Text(Some(OrEmpty(user.email)))
    ensures p[AvatarUrl] == Text(Some(OrEmpty(user.metadataAvatarUrl)))
    ensures forall f :: f !in {Id, UserId, TeamStatus, UserType, FullName, Email, AvatarUrl} ==> p[f] == BlankRow()[f]
  {
    BlankRow()[Id := Text(Some(id))][UserId := Text(Some(user.userId))]
      [FullName := Text(Some(OrEmpty(user.metadataFullName)))]
      [Email := Text(Some(OrEmpty(user.email)))]
      [AvatarUrl := Text(Some(OrEmpty(user.metadataAvatarUrl)))]
      [TeamStatus := Text(Some("buscando"))]
      [UserType := Text(Some("universitario"))]
  }

  /** A freshly created profile is never complete: gender, university and the skill columns are still null. */
  lemma InitialProfileIncomplete(id: string, user: Identity)
    ensures !IsProfileComplete(Some(InitialProfile(id, user)))
  {
    var p := InitialProfile(id, user);
    assert Gender !in {Id, UserId, TeamStatus, UserType, FullName, Email, AvatarUrl};
    assert p[Gender] == BlankRow()[Gender] == Text(None);
  }
}
