/**
 * The in-memory user table of the tracker pages: registration, login, daily logs and the two
 * "Smart Tuning" apply steps, over a dictionary of user records keyed by normalised email.
 * Two pages keep such a table: the account page, whose records have no logs, and the tracker
 * page, whose records start with an empty list of logs.
 */
module Accounts {
  import opened Wrappers
  import opened Numerics
  import opened Text
  import opened Dates
  import opened Goals
  import opened Logs
  import opened Validators
  import opened Tuning
  import opened Tdee

  /** The random bytes of a user's salt (`os.urandom(16)`), supplied by the caller. */
  type Salt = seq<bv8>

  /** Which page's table: the account page (no logs) or the tracker page (with daily logs). */
  datatype Edition = AccountPage | TrackerPage

  datatype Settings = Settings(unitSystem: string, showHydration: bool, nudgeOptIn: bool)

  /** One user's record; `logs` is `None` where the record has no "logs" entry. */
  datatype UserRecord = UserRecord(
    salt: Salt,
    passwordHash: string,
    profile: Profile,
    settings: Settings,
    goals: Option<map<string, int>>,
    logs: Option<seq<LogEntry>>)

  /** `(email or "").lower().strip()`: lower-cased, then stripped of surrounding whitespace. */
  function NormalizeEmail(email: Option<string>): (e: string)
    ensures forall k :: 0 <= k < |e| ==> !('A' <= e[k] <= 'Z')
    ensures e == [] || (!IsSpace(e[0]) && !IsSpace(e[|e| - 1]))
    ensures e == Strip(Lower(email.GetOr("")))
  {
    var l := Lower(email.GetOr(""));
    StripKeepsNoCapitals(l);
    Strip(l)
  }

  /** Normalising a normalised email changes nothing. */
  lemma NormalizeEmailIdempotent(email: Option<string>)
    ensures NormalizeEmail(Some(NormalizeEmail(email))) == NormalizeEmail(email)
  {
    var e := NormalizeEmail(email);
    LowerOfLowerCase(e);
    StripIdempotent(Lower(email.GetOr("")));
  }

  /** Case does not matter: an email and its lower-cased spelling are one user. */
  lemma NormalizeEmailIgnoresCase(s: string)
    ensures NormalizeEmail(Some(Lower(s))) == NormalizeEmail(Some(s))
  {
    LowerIdempotent(s);
  }

  /** Whitespace around an email does not matter: it is one user with or without it. */
  lemma NormalizeEmailIgnoresSpace(c: char, s: string)
    requires IsSpace(c)
    ensures NormalizeEmail(Some([c] + s)) == NormalizeEmail(Some(s))
    ensures NormalizeEmail(Some(s + [c])) == NormalizeEmail(Some(s))
  {
    LowerAppend([c], s);
    LowerAppend(s, [c]);
    assert Lower([c]) == [c];
    StripLeadingSpace(c, Lower(s));
    StripTrailingSpace(c, Lower(s));
  }

  /** What `register_user` decides, in the order it checks. */
  datatype Registration = Registered | InvalidEmail | WeakPassword(verdict: PasswordVerdict) | AlreadyRegistered

  /**
   * `register_user`'s checks on the normalised email: its format first, then the password, then
   * whether it is taken.
   */
  function RegistrationOf(users: map<string, UserRecord>, email: Option<string>, password: Option<string>)
    : (o: Registration)
    ensures o == InvalidEmail <==> !ValidateEmail(Some(NormalizeEmail(email)))
    ensures o.WeakPassword? <==> ValidateEmail(Some(NormalizeEmail(email))) && StrongPassword(password) != Strong
    ensures o.WeakPassword? ==> o.verdict == StrongPassword(password)
    ensures o == AlreadyRegistered <==>
              ValidateEmail(Some(NormalizeEmail(email))) && StrongPassword(password) == Strong && NormalizeEmail(email) in users
    ensures o == Registered <==>
              ValidateEmail(Some(NormalizeEmail(email))) && StrongPassword(password) == Strong && NormalizeEmail(email) !in users
  {
    var e := NormalizeEmail(email);
    if !ValidateEmail(Some(e)) then InvalidEmail
    else if StrongPassword(password) != Strong then WeakPassword(StrongPassword(password))
    else if e in users then AlreadyRegistered
    else Registered
  }

  /** The two wordings of the success message. */
  predicate IsSuccessMessage(m: string) {
    m == "Completed register, please log in." || m == "Completed registration, please log in."
  }

  /**
   * The message `register_user` returns; the two pages word some of them differently. Only a
   * registration gives a success message.
   */
  function RegisterMessage(edition: Edition, o: Registration): (m: string)
    ensures IsSuccessMessage(m) <==> o == Registered
    ensures o == InvalidEmail ==> m == "Please enter formal Email format."
    ensures o.WeakPassword? && o.verdict == Strong ==> m == ""
  {
    match o
    case Registered =>
      if edition == TrackerPage then "Completed register, please log in." else "Completed registration, please log in."
    case InvalidEmail => "Please enter formal Email format."
    case WeakPassword(v) =>
      if v == TooShort then
        (if edition == TrackerPage then "At least 8 digits for password" else "Password at least 8 digits")
      else if v == LacksLetterOrDigit then
        (if edition == TrackerPage then "Password must include numbers and words." else "Password should include words and numerical")
      else ""
    case AlreadyRegistered =>
      if edition == TrackerPage then "This Email has registered." else "This Email has been registered."
  }

  /** The profile of a new user: only the name is set, and the activity level "light". */
  function NewProfile(name: string): Profile {
    Profile(name, None, None, None, None, Some("light"))
  }

  const DefaultSettings := Settings("metric", false, true)

  /** The record of a new user: no goals, and on the tracker page an empty list of logs. */
  function NewRecord(edition: Edition, salt: Salt, hash: string, name: string): (r: UserRecord)
    ensures r.goals.None? && r.profile == NewProfile(name) && r.settings == DefaultSettings
    ensures r.salt == salt && r.passwordHash == hash
    ensures edition == TrackerPage <==> r.logs == Some([])
    ensures edition == AccountPage <==> r.logs.None?
  {
    UserRecord(salt, hash, NewProfile(name), DefaultSettings, None, if edition == TrackerPage then Some([]) else None)
  }

  /** `login_user`: the normalised email is registered and the stored hash is that of salt and password. */
  predicate CanLogIn(users: map<string, UserRecord>, hashPw: (Salt, string) -> string,
                     email: Option<string>, password: string)
    ensures CanLogIn(users, hashPw, email, password) ==> NormalizeEmail(email) in users
  {
    var e := NormalizeEmail(email);
    e in users && users[e].passwordHash == hashPw(users[e].salt, password)
  }

  /** An email nobody registered never logs in, whatever the password. */
  lemma UnknownEmailCannotLogIn(users: map<string, UserRecord>, hashPw: (Salt, string) -> string,
                                email: Option<string>, password: string)
    requires NormalizeEmail(email) !in users
    ensures !CanLogIn(users, hashPw, email, password)
  {
  }

  /**
   * Registering and then logging in with the same password succeeds for any spelling of the email
   * that normalises to the registered address.
   */
  lemma NewUserCanLogIn(users: map<string, UserRecord>, hashPw: (Salt, string) -> string, edition: Edition,
                        email: Option<string>, spelling: Option<string>, password: string, name: string, salt: Salt)
    requires NormalizeEmail(spelling) == NormalizeEmail(email)
    ensures CanLogIn(users[NormalizeEmail(email) := NewRecord(edition, salt, hashPw(salt, password), name)],
                     hashPw, spelling, password)
  {
    var e := NormalizeEmail(email);
    var rec := NewRecord(edition, salt, hashPw(salt, password), name);
    var users' := users[e := rec];
    assert users'[e] == rec;
  }

  /** Storing one user's record leaves the login of every other address as it was. */
  lemma OtherLoginsUnchanged(users: map<string, UserRecord>, hashPw: (Salt, string) -> string,
                             email: Option<string>, rec: UserRecord, other: Option<string>, password: string)
    requires NormalizeEmail(other) != NormalizeEmail(email)
    ensures CanLogIn(users[NormalizeEmail(email) := rec], hashPw, other, password)
            <==> CanLogIn(users, hashPw, other, password)
  {
    var e, o := NormalizeEmail(email), NormalizeEmail(other);
    var users' := users[e := rec];
    assert o in users' <==> o in users;
    if o in users {
      assert users'[o] == users[o];
    }
  }

  /** The entry `add_log` appends: `float` for the weight, `int` (truncation) for the others. */
  function NewEntry(date: Date, weight: Option<real>, kcalIn: Option<real>, proteinG: Option<real>,
                    carbsG: Option<real>, fatG: Option<real>, steps: Option<real>): (e: LogEntry)
    ensures e.date == date && e.weightKg == weight
    ensures e.kcalIn.Some? <==> kcalIn.Some?
    ensures kcalIn.Some? && kcalIn.value >= 0.0 ==>
              e.kcalIn.value as real <= kcalIn.value < e.kcalIn.value as real + 1.0
    ensures e.kcalIn == TruncOpt(kcalIn) && e.proteinG == TruncOpt(proteinG) && e.carbsG == TruncOpt(carbsG)
    ensures e.fatG == TruncOpt(fatG) && e.steps == TruncOpt(steps)
  {
    LogEntry(date, weight, TruncOpt(kcalIn), TruncOpt(proteinG), TruncOpt(carbsG), TruncOpt(fatG), TruncOpt(steps))
  }

  /** `int(x) if x is not None else None`. */
  function TruncOpt(x: Option<real>): (r: Option<int>)
    ensures r.Some? <==> x.Some?
    ensures x.Some? ==> r.value == Trunc(x.value)
  {
    if x.Some? then Some(Trunc(x.value)) else None
  }

  /**
   * The TDEE apply step for one record on day `today` with a weekly weight change: the baseline
   * kcal, the estimate over the stored logs, and on a non-zero estimate the new goals. `None`:
   * nothing is stored (the baseline raised, or there is no estimate, or it is 0).
   */
  function TdeeStep(rec: UserRecord, today: Date, targetChange: real): (r: Option<UserRecord>)
    ensures r.Some? ==> BaseKcal(rec.goals, rec.profile, today).Some?
                        && |CompleteRows(rec.logs.GetOr([]))| >= 14
    ensures r.Some? <==> var base := BaseKcal(rec.goals, rec.profile, today);
                         base.Some? && var est := StoredTdee(rec.logs.GetOr([]), base.value);
                         est.Some? && est.value != 0
    ensures r.Some? ==> r.value == rec.(goals := r.value.goals) && r.value.goals.Some?
    ensures r.Some? ==>
              var est := StoredTdee(rec.logs.GetOr([]), BaseKcal(rec.goals, rec.profile, today).value);
              r.value.goals == Some(TdeeGoals(rec.goals, WeightOf(rec.profile), est.value + DailyShift(targetChange)))
  {
    var base := BaseKcal(rec.goals, rec.profile, today);
    if base.None? then None
    else
      var est := StoredTdee(rec.logs.GetOr([]), base.value);
      StoredTdeeNeeds14Days(rec.logs.GetOr([]), base.value);
      if est.None? || est.value == 0 then None
      else Some(rec.(goals := Some(TdeeGoals(rec.goals, WeightOf(rec.profile), est.value + DailyShift(targetChange)))))
  }

  /** The goals a TDEE step stores always fit their kcal goal when the carbs remainder is not negative. */
  lemma TdeeStepFitsBudget(rec: UserRecord, today: Date, targetChange: real)
    requires TdeeStep(rec, today, targetChange).Some?
    ensures var g := TdeeStep(rec, today, targetChange).value.goals.value;
            {"kcal", "protein_g", "fat_g", "carbs_g"} <= g.Keys
            && (g["kcal"] >= 0 && g["kcal"] - (4 * g["protein_g"] + Trunc(0.30 * g["kcal"] as real)) >= 0
                ==> MacroEnergy(g) <= g["kcal"])
  {
    var base := BaseKcal(rec.goals, rec.profile, today);
    var est := StoredTdee(rec.logs.GetOr([]), base.value);
    var kcal := est.value + DailyShift(targetChange);
    var g := TdeeGoals(rec.goals, WeightOf(rec.profile), kcal);
    assert TdeeStep(rec, today, targetChange).value.goals.value == g;
    if kcal >= 0 && kcal - (4 * g["protein_g"] + Trunc(0.30 * kcal as real)) >= 0 {
      TdeeGoalsFitBudget(rec.goals, WeightOf(rec.profile), kcal);
    }
  }

  /**
   * The adherence apply step for one record: with a non-zero adjustment the kcal goal is nudged,
   * otherwise nothing is stored. The page computes the baseline kcal first, which only raises
   * for a goals record without "kcal", and such a record never gives an adherence result.
   */
  function AdherenceStep(rec: UserRecord, today: Date): (r: Option<UserRecord>)
    ensures r.Some? <==> AdherenceGoals(rec.logs.GetOr([]), rec.goals).Some?
    ensures r.Some? ==> BaseKcal(rec.goals, rec.profile, today).Some?
    ensures r.Some? ==> r.value == rec.(goals := AdherenceGoals(rec.logs.GetOr([]), rec.goals))
    ensures r.Some? ==> r.value.goals.Some? && "kcal" in r.value.goals.value && r.value.goals.value["kcal"] >= 1000
  {
    var g := AdherenceGoals(rec.logs.GetOr([]), rec.goals);
    if g.Some? then Some(rec.(goals := g)) else None
  }

  /**
   * The scenario-macro apply step for one record: the recommended macros for scenario `goal` are
   * written into its goals; `None` when the baseline kcal raises.
   */
  function ScenarioStep(rec: UserRecord, today: Date, goal: string): (r: Option<UserRecord>)
    ensures r.Some? <==> BaseKcal(rec.goals, rec.profile, today).Some?
    ensures r.Some? ==> r.value == rec.(goals := r.value.goals) && r.value.goals.Some?
                        && {"protein_g", "fat_g", "carbs_g"} <= r.value.goals.value.Keys
    ensures r.Some? ==> r.value.goals == ScenarioGoals(rec.goals, rec.profile, today, goal)
  {
    var g := ScenarioGoals(rec.goals, rec.profile, today, goal);
    if g.Some? then Some(rec.(goals := g)) else None
  }

  /**
   * Generating scenario macros before any goals are stored leaves a goals record without "kcal":
   * afterwards every apply step fails on the baseline, the scenario step included.
   */
  lemma ScenarioWithoutGoalsBlocksTuning(rec: UserRecord, today: Date, goal: string, targetChange: real)
    requires !HasGoals(rec.goals)
    ensures ScenarioStep(rec, today, goal).Some?
    ensures var next := ScenarioStep(rec, today, goal).value;
            TdeeStep(next, today, targetChange).None? && AdherenceStep(next, today).None?
            && ScenarioStep(next, today, goal).None?
  {
    ScenarioWithoutGoalsLosesKcal(rec.goals, rec.profile, today, goal);
  }

  /** Every key is a normalised valid email; on the tracker page every record has a list of logs. */
  predicate ValidUsers(edition: Edition, users: map<string, UserRecord>) {
    forall e | e in users :: ValidKey(e) && (edition == TrackerPage ==> users[e].logs.Some?)
  }

  predicate ValidKey(e: string) {
    ValidateEmail(Some(e)) && NormalizeEmail(Some(e)) == e
  }

  /** Replacing a record under an existing key keeps the table valid if the new record keeps its logs. */
  lemma ValidAfterUpdate(edition: Edition, users: map<string, UserRecord>, e: string, rec: UserRecord)
    requires ValidUsers(edition, users) && e in users
    requires edition == TrackerPage ==> rec.logs.Some?
    ensures ValidUsers(edition, users[e := rec])
  {
    assert ValidKey(e);
  }

  /** Adding the record of a valid address under its normalised form keeps the table valid. */
  lemma ValidAfterInsert(edition: Edition, users: map<string, UserRecord>, email: Option<string>, rec: UserRecord)
    requires ValidUsers(edition, users) && ValidateEmail(Some(NormalizeEmail(email)))
    requires edition == TrackerPage ==> rec.logs.Some?
    ensures ValidUsers(edition, users[NormalizeEmail(email) := rec])
  {
    NormalizeEmailIdempotent(email);
    assert ValidKey(NormalizeEmail(email));
  }

  /**
   * The user table of one page. `hashPw` stands for `sha256(salt + password)`, a deterministic
   * function the model does not look into.
   */
  class AccountTable {
    const edition: Edition
    const hashPw: (Salt, string) -> string
    var users: map<string, UserRecord>

    /** Every key is a normalised valid email; on the tracker page every record has a list of logs. */
    predicate Valid()
      reads this
    {
      ValidUsers(edition, users)
    }

    /** An empty table (`st.session_state.users = {}`). */
    constructor(edition: Edition, hashPw: (Salt, string) -> string)
      ensures this.edition == edition && this.hashPw == hashPw
      ensures users == map[] && Valid()
    {
      this.edition := edition;
      this.hashPw := hashPw;
      users := map[];
    }

    /**
     * `register_user(email, password, name)` with the fresh `salt`: on any failure the table is
     * unchanged; on success exactly one record is added, under the normalised email.
     */
    method Register(email: Option<string>, password: string, name: string, salt: Salt) returns (msg: string)
      requires Valid()
      modifies this
      ensures Valid()
      ensures msg == RegisterMessage(edition, RegistrationOf(old(users), email, Some(password)))
      ensures RegistrationOf(old(users), email, Some(password)) == Registered ==>
                users == old(users)[NormalizeEmail(email) := NewRecord(edition, salt, hashPw(salt, password), name)]
      ensures RegistrationOf(old(users), email, Some(password)) != Registered ==> users == old(users)
    {
      var e := NormalizeEmail(email);
      var outcome := RegistrationOf(users, email, Some(password));
      msg := RegisterMessage(edition, outcome);
      if outcome == Registered {
        ValidAfterInsert(edition, users, email, NewRecord(edition, salt, hashPw(salt, password), name));
        users := users[e := NewRecord(edition, salt, hashPw(salt, password), name)];
      }
    }

    /** `login_user(email, password)`. */
    function LogIn(email: Option<string>, password: string): (ok: bool)
      reads this
      ensures ok ==> NormalizeEmail(email) in users
      ensures ok <==> CanLogIn(users, hashPw, email, password)
    {
      CanLogIn(users, hashPw, email, password)
    }

    /**
     * `add_log(email, ...)`: appends one entry to that user's logs. The email is used as given;
     * an unknown email, or a record without logs, raises `KeyError` (`ok` false) and nothing changes.
     */
    method AddLog(email: string, date: Date, weight: Option<real>, kcalIn: Option<real>, proteinG: Option<real>,
                  carbsG: Option<real>, fatG: Option<real>, steps: Option<real>) returns (ok: bool)
      requires Valid()
      modifies this
      ensures Valid()
      ensures ok <==> email in old(users) && old(users)[email].logs.Some?
      ensures edition == TrackerPage && email in old(users) ==> ok
      ensures ok ==> users == old(users)[email := old(users)[email].(logs := Some(old(users)[email].logs.value
                              + [NewEntry(date, weight, kcalIn, proteinG, carbsG, fatG, steps)]))]
      ensures !ok ==> users == old(users)
    {
      ok := email in users && users[email].logs.Some?;
      if ok {
        var rec := users[email];
        ValidAfterUpdate(edition, users, email, rec.(logs := Some(rec.logs.value + [NewEntry(date, weight, kcalIn, proteinG, carbsG, fatG, steps)])));
        users := users[email := rec.(logs := Some(rec.logs.value + [NewEntry(date, weight, kcalIn, proteinG, carbsG, fatG, steps)]))];
      }
    }

    /**
     * The TDEE apply step for the logged-in user `email` on day `today`, with the weekly weight
     * change `targetChange` the user picked; `applied` tells whether new goals were stored.
     */
    method ApplyTdee(email: string, today: Date, targetChange: real) returns (applied: bool)
      requires Valid() && email in users
      modifies this
      ensures Valid()
      ensures applied <==> TdeeStep(old(users)[email], today, targetChange).Some?
      ensures applied ==> users == old(users)[email := TdeeStep(old(users)[email], today, targetChange).value]
      ensures !applied ==> users == old(users)
    {
      var r := TdeeStep(users[email], today, targetChange);
      applied := r.Some?;
      if applied {
        ValidAfterUpdate(edition, users, email, r.value);
        users := users[email := r.value];
      }
    }

    /** The scenario-macro apply step for the logged-in user `email` on day `today` and scenario `goal`. */
    method ApplyScenario(email: string, today: Date, goal: string) returns (applied: bool)
      requires Valid() && email in users
      modifies this
      ensures Valid()
      ensures applied <==> ScenarioStep(old(users)[email], today, goal).Some?
      ensures applied ==> users == old(users)[email := ScenarioStep(old(users)[email], today, goal).value]
      ensures !applied ==> users == old(users)
    {
      var r := ScenarioStep(users[email], today, goal);
      applied := r.Some?;
      if applied {
        ValidAfterUpdate(edition, users, email, r.value);
        users := users[email := r.value];
      }
    }

    /** The adherence apply step for the logged-in user `email` on day `today`. */
    method ApplyAdherence(email: string, today: Date) returns (applied: bool)
      requires Valid() && email in users
      modifies this
      ensures Valid()
      ensures applied <==> AdherenceStep(old(users)[email], today).Some?
      ensures applied ==> users == old(users)[email := AdherenceStep(old(users)[email], today).value]
      ensures applied ==> users[email].goals.value["kcal"] >= 1000
      ensures !applied ==> users == old(users)
    {
      var r := AdherenceStep(users[email], today);
      applied := r.Some?;
      if applied {
        ValidAfterUpdate(edition, users, email, r.value);
        users := users[email := r.value];
      }
    }
  }
}
