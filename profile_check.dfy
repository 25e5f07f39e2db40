/**
 * `ProfileCheck` of src/components/ProfileCheck.tsx: the guard around the
 * signed-in pages that sends a user with an incomplete profile to
 * `/profile`, with its own, shorter, completeness rule.
 */
module ProfileGate {
  import opened Wrappers
  import opened Profiles

  /** The keys the guard wants truthy, whatever the user's category. */
  const GateFields: seq<Field> := [FullName, University, Career, Year, Gender, EntrepreneurType, TeamStatus]

  /** The guard's completeness test: a row exists and every key of `GateFields` is truthy. */
  predicate IsCompleteForGate(p: Option<Profile>) {
    p.Some? &&
    Truthy(p.value[FullName]) && Truthy(p.value[University]) && Truthy(p.value[Career]) &&
    Truthy(p.value[Year]) && Truthy(p.value[Gender]) && Truthy(p.value[EntrepreneurType]) &&
    Truthy(p.value[TeamStatus])
  }

  /** The guard's test, restated over its list of keys. */
  lemma GateFieldsCharacterise(p: Option<Profile>)
    ensures IsCompleteForGate(p) <==> p.Some? && forall k :: 0 <= k < |GateFields| ==> Truthy(p.value[GateFields[k]])
  {
    if p.Some? && forall k :: 0 <= k < |GateFields| ==> Truthy(p.value[GateFields[k]]) {
      assert GateFields[0] == FullName && GateFields[1] == University && GateFields[2] == Career;
      assert GateFields[3] == Year && GateFields[4] == Gender && GateFields[5] == EntrepreneurType;
      assert GateFields[6] == TeamStatus;
    }
  }

  /** The pages the guard never checks. */
  predicate IsExemptPath(path: string) {
    path == "/profile" || path == "/auth"
  }

  /** What the profile query gave back: a row or null, or a thrown error. */
  datatype FetchOutcome = Fetched(profile: Option<Profile>) | Threw

  /** What one run of `checkProfile` does. */
  datatype Decision =
    | Wait       // auth still loading: nothing at all
    | Admit      // `checking` becomes false and the page is shown
    | Redirect   // `navigate('/profile')`; `checking` stays as it was

  /** The decision of `checkProfile` for the auth state, the current path and the query's outcome. */
  function Decide(authLoading: bool, user: Option<string>, path: string, response: FetchOutcome): (d: Decision)
    ensures d == Wait <==> authLoading
    ensures !authLoading && (user.None? || IsExemptPath(path)) ==> d == Admit
    ensures d == Redirect <==>
      !authLoading && user.Some? && !IsExemptPath(path) &&
      (response.Threw? || !IsCompleteForGate(response.profile))
  {
    if authLoading then Wait
    else if user.None? || IsExemptPath(path) then Admit
    else if response.Threw? then Redirect
    else if !IsCompleteForGate(response.profile) then Redirect
    else Admit
  }

  /** A non-university founder who has filled in everything the profile page asks of them. */
  function Professional(): Profile {
    map f: Field :: ProfessionalValue(f)
  }

  function ProfessionalValue(f: Field): (v: Value)
    ensures Fits(f, v)
  {
    match f
    case FullName => Text(Some("Ana"))
    case UserType => Text(Some("no_universitario"))
    case Gender => Text(Some("femenino"))
    case EntrepreneurType => Text(Some("tecnico"))
    case TeamStatus => Text(Some("buscando"))
    case IsTechnical => Flag(Some(true))
    case SeekingTechnical => Text(Some("none"))
    case TechnicalSkills => List(Some(["SQL"]))
    case Profession => Text(Some("ingeniera"))
    case ExperienceYears => Number(Some(5))
    case _ => BlankValue(f)
  }

  /**
   * The two completeness rules disagree in both directions. A complete
   * non-university profile has no university, so the guard turns it away.
   */
  lemma ProfessionalTurnedAway()
    ensures exists p: Profile :: IsProfileComplete(Some(p)) && !IsCompleteForGate(Some(p))
  {
    var p := Professional();
    ProfessionalShared();
    ProfessionalSkills();
    ProfessionalCareer();
    ProfessionalComplete(p);
  }

  lemma ProfessionalShared()
    ensures var p := Professional();
      p[FullName] == Text(Some("Ana")) && p[UserType] == Text(Some("no_universitario")) &&
      p[Gender] == Text(Some("femenino")) && p[EntrepreneurType] == Text(Some("tecnico")) &&
      p[TeamStatus] == Text(Some("buscando"))
  {
  }

  lemma ProfessionalSkills()
    ensures var p := Professional();
      p[IsTechnical] == Flag(Some(true)) && p[SeekingTechnical] == Text(Some("none")) &&
      p[TechnicalSkills] == List(Some(["SQL"]))
  {
  }

  lemma ProfessionalCareer()
    ensures var p := Professional();
      p[Profession] == Text(Some("ingeniera")) && p[ExperienceYears] == Number(Some(5)) &&
      p[University] == Text(None)
  {
  }

  lemma ProfessionalComplete(p: Profile)
    requires p[FullName] == Text(Some("Ana")) && p[UserType] == Text(Some("no_universitario"))
    requires p[Gender] == Text(Some("femenino")) && p[EntrepreneurType] == Text(Some("tecnico"))
    requires p[TeamStatus] == Text(Some("buscando"))
    requires p[IsTechnical] == Flag(Some(true)) && p[SeekingTechnical] == Text(Some("none"))
    requires p[TechnicalSkills] == List(Some(["SQL"])) && p[Profession] == Text(Some("ingeniera"))
    requires p[ExperienceYears] == Number(Some(5)) && p[University] == Text(None)
    ensures IsProfileComplete(Some(p)) && !IsCompleteForGate(Some(p))
  {
  }

  /** A profile with study data but no user type, filling in only the keys the guard looks at. */
  function GuardKeysOnly(): Profile {
    map f: Field :: GuardKeysOnlyValue(f)
  }

  function GuardKeysOnlyValue(f: Field): (v: Value)
    ensures Fits(f, v)
  {
    match f
    case FullName => Text(Some("Ana"))
    case University => Text(Some("UC"))
    case Career => Text(Some("Ingenieria"))
    case Year => Number(Some(2))
    case Gender => Text(Some("femenino"))
    case EntrepreneurType => Text(Some("tecnico"))
    case TeamStatus => Text(Some("buscando"))
    case _ => BlankValue(f)
  }

  /** And a profile the guard admits can still lack what the profile page asks for. */
  lemma GateAdmitsIncomplete()
    ensures exists p: Profile :: IsCompleteForGate(Some(p)) && !IsProfileComplete(Some(p))
  {
    var p := GuardKeysOnly();
    GuardKeysOnlyStudies();
    GuardKeysOnlyRest();
    assert IsCompleteForGate(Some(p)) && !IsProfileComplete(Some(p));
  }

  lemma GuardKeysOnlyStudies()
    ensures var p := GuardKeysOnly();
      Truthy(p[University]) && Truthy(p[Career]) && Truthy(p[Year]) && !Truthy(p[UserType])
  {
  }

  lemma GuardKeysOnlyRest()
    ensures var p := GuardKeysOnly();
      Truthy(p[FullName]) && Truthy(p[Gender]) && Truthy(p[EntrepreneurType]) && Truthy(p[TeamStatus])
  {
  }

  /** For a university student the profile page's rule is the stricter one: it implies the guard's. */
  lemma StudentCompleteSatisfiesGate(p: Profile)
    requires p[UserType] == Text(Some("universitario")) && IsProfileComplete(Some(p))
    ensures IsCompleteForGate(Some(p))
  {
    IsProfileCompleteMeetsRequirements(Some(p));
    var reqs := Requirements(p);
    assert Filled(FullName) in reqs && Filled(Gender) in reqs && Filled(EntrepreneurType) in reqs;
    assert Filled(TeamStatus) in reqs && Filled(University) in reqs && Filled(Career) in reqs;
    assert Filled(Year) in reqs;
  }

  /** The mounted guard: the `checking` flag and the navigations it has requested. */
  class Guard {
    var checking: bool
    var navigations: seq<string>

    constructor ()
      ensures checking && navigations == []
    {
      checking := true;
      navigations := [];
    }

    /** The spinner shows while auth is loading or the check has not admitted the page. */
    function ShowsSpinner(authLoading: bool): (shown: bool)
      reads this
      ensures shown <==> authLoading || checking
    {
      authLoading || checking
    }

    /** One run of the `checkProfile` effect. */
    method CheckProfile(authLoading: bool, user: Option<string>, path: string, response: FetchOutcome)
      modifies this
      ensures match Decide(authLoading, user, path, response)
        case Wait => checking == old(checking) && navigations == old(navigations)
        case Admit => !checking && navigations == old(navigations)
        case Redirect => checking == old(checking) && navigations == old(navigations) + ["/profile"]
    {
      if authLoading {
        return;
      }
      if user.None? || IsExemptPath(path) {
        checking := false;
        return;
      }
      match response {
        case Threw =>
          navigations := navigations + ["/profile"];
          return;
        case Fetched(profile) =>
          if !IsCompleteForGate(profile) {
            navigations := navigations + ["/profile"];
            return;
          }
      }
      checking := false;
    }
  }

  /** A fresh guard that is sent to `/profile` keeps its spinner: the children are never shown. */
  method RedirectKeepsSpinner(user: string, path: string, response: FetchOutcome) returns (spinner: bool)
    requires !IsExemptPath(path)
    requires response.Threw? || !IsCompleteForGate(response.profile)
    ensures spinner
  {
    var g := new Guard();
    g.CheckProfile(false, Some(user), path, response);
    spinner := g.ShowsSpinner(false);
  }
}
