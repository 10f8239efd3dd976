/** The profile document of `routes/api/profile.js` and the value-level logic
    of its handlers: request validation, assembly of the profile fields from a
    request body, the `$set` update and the creation of a profile, and the
    removal of an experience or education entry by id. */
module Profiles {
  import opened JsStrings
  import opened JsArrays

  type UserId = nat

  /** Sub-document ids; the document store assigns them. */
  type EntryId = nat

  datatype Option<T> = None | Some(value: T)

  datatype Social = Social(
    youtube: Option<string>,
    twitter: Option<string>,
    instagram: Option<string>,
    linkedin: Option<string>,
    facebook: Option<string>)

  datatype Experience = Experience(
    id: EntryId, title: string, company: string, location: string,
    from: string, to: string, current: bool, description: string)

  datatype Education = Education(
    id: EntryId, school: string, degree: string, fieldofstudy: string,
    from: string, to: string, current: bool, description: string)

  /** A stored profile. Scalar fields the request never supplied are absent;
      `skills`, `experience` and `education` are arrays, empty unless written. */
  datatype Profile = Profile(
    user: UserId,
    company: Option<string>,
    location: Option<string>,
    website: Option<string>,
    bio: Option<string>,
    status: Option<string>,
    githubusername: Option<string>,
    skills: seq<string>,
    social: Social,
    experience: seq<Experience>,
    education: seq<Education>)

  /** The body of `POST api/profile`. A body field that is missing and one that
      is the empty string are both `""`: the handler and the validator treat them alike. */
  datatype ProfileInput = ProfileInput(
    company: string, location: string, website: string, bio: string,
    skills: string, status: string, githubusername: string,
    youtube: string, twitter: string, instagram: string, linkedin: string, facebook: string)

  /** The body of `PUT api/profile/experience`. */
  datatype ExperienceInput = ExperienceInput(
    title: string, company: string, location: string,
    from: string, to: string, current: bool, description: string)

  /** The body of `PUT api/profile/education`. */
  datatype EducationInput = EducationInput(
    school: string, degree: string, fieldofstudy: string,
    from: string, to: string, current: bool, description: string)

  // ---------------------------------------------------------------- validation

  /** One entry of the validator's error list. */
  datatype FieldError = FieldError(param: string, msg: string)

  /** `check(param, msg).not().isEmpty()` applied to the value of `param`. */
  datatype Rule = Rule(param: string, msg: string, value: string)

  /** The error a single check contributes: its own error when its value is empty, none otherwise. */
  function ErrorIfEmpty(rule: Rule): (errs: seq<FieldError>)
    ensures errs == [] <==> rule.value != ""
    ensures errs != [] ==> errs == [FieldError(rule.param, rule.msg)]
  {
    if rule.value == "" then [FieldError(rule.param, rule.msg)] else []
  }

  /** The error list of a chain of not-empty checks: the validator runs the checks
      in the order they are declared and appends one error per check whose value is empty. */
  function CheckNotEmpty(rules: seq<Rule>): (errs: seq<FieldError>)
    ensures |errs| <= |rules|
    ensures errs == [] <==> forall i :: 0 <= i < |rules| ==> rules[i].value != ""
    ensures forall i :: 0 <= i < |rules| && rules[i].value == "" ==> FieldError(rules[i].param, rules[i].msg) in errs
    ensures forall e :: e in errs ==> exists i :: 0 <= i < |rules| && rules[i].value == "" && e == FieldError(rules[i].param, rules[i].msg)
  {
    if rules == [] then []
    else
      var init := rules[..|rules| - 1];
      assert forall i :: 0 <= i < |init| ==> init[i] == rules[i];
      CheckNotEmpty(init) + ErrorIfEmpty(rules[|rules| - 1])
  }

  /** The errors of a chain of three checks, in declaration order. */
  lemma CheckThree(a: Rule, b: Rule, c: Rule)
    ensures CheckNotEmpty([a, b, c]) == ErrorIfEmpty(a) + ErrorIfEmpty(b) + ErrorIfEmpty(c)
  {
    assert [a, b, c][..2] == [a, b] && [a, b][..1] == [a] && [a][..0] == [];
    assert CheckNotEmpty([a]) == ErrorIfEmpty(a);
    assert CheckNotEmpty([a, b]) == ErrorIfEmpty(a) + ErrorIfEmpty(b);
  }

  /** Errors for `POST api/profile`: `status` and `skills` must be non-empty. */
  function ValidateProfile(input: ProfileInput): (errs: seq<FieldError>)
    ensures errs == [] <==> input.status != "" && input.skills != ""
    ensures errs == (if input.status == "" then [FieldError("status", "Status is required")] else [])
                  + (if input.skills == "" then [FieldError("skills", "Skills is required")] else [])
  {
    var rules := [Rule("status", "Status is required", input.status),
                  Rule("skills", "Skills is required", input.skills)];
    assert rules[..1] == [rules[0]] && [rules[0]][..0] == [];
    CheckNotEmpty(rules)
  }

  /** Errors for `PUT api/profile/experience`: `title`, `company` and `from` must be non-empty. */
  function ValidateExperience(input: ExperienceInput): (errs: seq<FieldError>)
    ensures errs == [] <==> input.title != "" && input.company != "" && input.from != ""
    ensures errs == (if input.title == "" then [FieldError("title", "Title is required")] else [])
                  + (if input.company == "" then [FieldError("company", "Company is required")] else [])
                  + (if input.from == "" then [FieldError("from", "From is required")] else [])
  {
    var rules := [Rule("title", "Title is required", input.title),
                  Rule("company", "Company is required", input.company),
                  Rule("from", "From is required", input.from)];
    CheckThree(rules[0], rules[1], rules[2]);
    CheckNotEmpty(rules)
  }

  /** Errors for `PUT api/profile/education`: `school`, `degree` and `fieldofstudy`
      must be non-empty; `from` is not checked. */
  function ValidateEducation(input: EducationInput): (errs: seq<FieldError>)
    ensures errs == [] <==> input.school != "" && input.degree != "" && input.fieldofstudy != ""
    ensures errs == (if input.school == "" then [FieldError("school", "School is required")] else [])
                  + (if input.degree == "" then [FieldError("degree", "Degree is required")] else [])
                  + (if input.fieldofstudy == "" then [FieldError("fieldofstudy", "Field of study is required")] else [])
  {
    var rules := [Rule("school", "School is required", input.school),
                  Rule("degree", "Degree is required", input.degree),
                  Rule("fieldofstudy", "Field of study is required", input.fieldofstudy)];
    CheckThree(rules[0], rules[1], rules[2]);
    CheckNotEmpty(rules)
  }

  // ---------------------------------------------------------- field assembly

  /** `o` holds the request value exactly when that value is truthy (a non-empty string). */
  predicate PresentWhenTruthy(o: Option<string>, value: string)
  {
    (o.Some? <==> value != "") && (o.Some? ==> o.value == value)
  }

  /** `if (value) target = value`: the field is written only for a truthy value. */
  function IfTruthy(value: string): (o: Option<string>)
    ensures PresentWhenTruthy(o, value)
  {
    if value != "" then Some(value) else None
  }

  /** `pieces.map((skill) => skill.trim())`. */
  function TrimEach(pieces: seq<string>): (r: seq<string>)
    ensures |r| == |pieces|
    ensures forall i :: 0 <= i < |r| ==> r[i] == Trim(pieces[i])
  {
    if pieces == [] then [] else [Trim(pieces[0])] + TrimEach(pieces[1..])
  }

  /** Trimming each piece adds no character to any piece. */
  lemma {:induction false} TrimEachKeepsAbsent(pieces: seq<string>, c: char)
    requires forall i :: 0 <= i < |pieces| ==> c !in pieces[i]
    ensures forall i :: 0 <= i < |pieces| ==> c !in TrimEach(pieces)[i]
  {
    if pieces != [] {
      TrimKeepsAbsent(pieces[0], c);
      TrimEachKeepsAbsent(pieces[1..], c);
    }
  }

  /** Pieces that are already trimmed come through `TrimEach` unchanged. */
  lemma {:induction false} TrimEachFixesTrimmed(pieces: seq<string>)
    requires forall i :: 0 <= i < |pieces| ==> IsTrimmed(pieces[i])
    ensures TrimEach(pieces) == pieces
  {
    if pieces != [] {
      TrimFixesTrimmed(pieces[0]);
      TrimEachFixesTrimmed(pieces[1..]);
      assert pieces == [pieces[0]] + pieces[1..];
    }
  }

  /** `skills.split(',').map((skill) => skill.trim())`. */
  function ParseSkills(csv: string): (r: seq<string>)
    ensures |r| == multiset(csv)[','] + 1
    ensures forall i :: 0 <= i < |r| ==> IsTrimmed(r[i]) && ',' !in r[i]
  {
    var pieces := Split(csv, ',');
    SplitCount(csv, ',');
    TrimEachKeepsAbsent(pieces, ',');
    TrimEach(pieces)
  }

  /** The stored skills, in input order: piece `i` of the comma split, trimmed. */
  lemma ParseSkillsPieces(csv: string, i: nat)
    requires i < |Split(csv, ',')|
    ensures i < |ParseSkills(csv)| && ParseSkills(csv)[i] == Trim(Split(csv, ',')[i])
  {
  }

  /** When no piece of the comma split carries whitespace at its ends, the stored
      skills joined back with commas give the submitted string. */
  lemma ParseSkillsLossless(csv: string)
    requires forall i :: 0 <= i < |Split(csv, ',')| ==> IsTrimmed(Split(csv, ',')[i])
    ensures Join(ParseSkills(csv), ',') == csv
  {
    TrimEachFixesTrimmed(Split(csv, ','));
    JoinSplit(csv, ',');
  }

  /** The profile fields built from one request, before they are written. */
  datatype Fields = Fields(
    user: UserId,
    company: Option<string>,
    location: Option<string>,
    website: Option<string>,
    bio: Option<string>,
    status: Option<string>,
    githubusername: Option<string>,
    skills: Option<seq<string>>,
    social: Social)

  /** The `social` object, rebuilt from scratch: a link appears exactly when the request carries it. */
  function BuildSocial(input: ProfileInput): (s: Social)
    ensures PresentWhenTruthy(s.youtube, input.youtube)
    ensures PresentWhenTruthy(s.twitter, input.twitter)
    ensures PresentWhenTruthy(s.instagram, input.instagram)
    ensures PresentWhenTruthy(s.linkedin, input.linkedin)
    ensures PresentWhenTruthy(s.facebook, input.facebook)
  {
    Social(IfTruthy(input.youtube), IfTruthy(input.twitter), IfTruthy(input.instagram),
           IfTruthy(input.linkedin), IfTruthy(input.facebook))
  }

  /** `profileFields` of `POST api/profile`: the caller as `user`, every truthy scalar,
      the parsed skills when `skills` is truthy, and a fresh `social` object. */
  function AssembleFields(caller: UserId, input: ProfileInput): (f: Fields)
    ensures f.user == caller
    ensures PresentWhenTruthy(f.company, input.company)
    ensures PresentWhenTruthy(f.location, input.location)
    ensures PresentWhenTruthy(f.website, input.website)
    ensures PresentWhenTruthy(f.bio, input.bio)
    ensures PresentWhenTruthy(f.status, input.status)
    ensures PresentWhenTruthy(f.githubusername, input.githubusername)
    ensures f.skills.Some? <==> input.skills != ""
    ensures f.skills.Some? ==> f.skills.value == ParseSkills(input.skills)
    ensures f.skills.Some? ==> |f.skills.value| == multiset(input.skills)[','] + 1
    ensures f.social == BuildSocial(input)
  {
    Fields(caller, IfTruthy(input.company), IfTruthy(input.location), IfTruthy(input.website),
           IfTruthy(input.bio), IfTruthy(input.status), IfTruthy(input.githubusername),
           if input.skills != "" then Some(ParseSkills(input.skills)) else None,
           BuildSocial(input))
  }

  // --------------------------------------------------------- create or update

  function Overwrite<T>(update: Option<T>, current: Option<T>): Option<T>
  {
    if update.Some? then update else current
  }

  /** A field after `$set`: the update's value when it carries one, the stored value otherwise. */
  predicate SetOrKept(after: Option<string>, before: Option<string>, update: Option<string>)
  {
    if update.Some? then after == update else after == before
  }

  /** `findOneAndUpdate(..., { $set: fields })`: every field present in `f` replaces the
      stored one, absent fields keep their stored value, `social` is one field and is
      replaced whole, and the sub-document arrays are not touched. */
  function ApplySet(p: Profile, f: Fields): (r: Profile)
    ensures r.user == f.user && r.social == f.social
    ensures r.experience == p.experience && r.education == p.education
    ensures SetOrKept(r.company, p.company, f.company)
    ensures SetOrKept(r.location, p.location, f.location)
    ensures SetOrKept(r.website, p.website, f.website)
    ensures SetOrKept(r.bio, p.bio, f.bio)
    ensures SetOrKept(r.status, p.status, f.status)
    ensures SetOrKept(r.githubusername, p.githubusername, f.githubusername)
    ensures if f.skills.Some? then r.skills == f.skills.value else r.skills == p.skills
  {
    Profile(f.user,
            Overwrite(f.company, p.company), Overwrite(f.location, p.location),
            Overwrite(f.website, p.website), Overwrite(f.bio, p.bio),
            Overwrite(f.status, p.status), Overwrite(f.githubusername, p.githubusername),
            if f.skills.Some? then f.skills.value else p.skills,
            f.social, p.experience, p.education)
  }

  /** `new Profile(fields)`: the fields as given, with empty arrays where none were given. */
  function NewProfile(f: Fields): (r: Profile)
    ensures r.user == f.user && r.social == f.social
    ensures r.experience == [] && r.education == []
    ensures r.company == f.company && r.location == f.location && r.website == f.website
    ensures r.bio == f.bio && r.status == f.status && r.githubusername == f.githubusername
    ensures if f.skills.Some? then r.skills == f.skills.value else r.skills == []
  {
    Profile(f.user, f.company, f.location, f.website, f.bio, f.status, f.githubusername,
            if f.skills.Some? then f.skills.value else [],
            f.social, [], [])
  }

  /** After the update, a scalar holds the request value when that value was truthy
      and its old value otherwise. */
  predicate Merged(after: Option<string>, before: Option<string>, value: string)
  {
    SetOrKept(after, before, IfTruthy(value))
  }

  /** The outcome of a valid `POST api/profile` for a user who already has a profile. */
  lemma UpdateExisting(p: Profile, caller: UserId, input: ProfileInput)
    requires ValidateProfile(input) == []
    ensures var r := ApplySet(p, AssembleFields(caller, input));
      && r.user == caller
      && r.status == Some(input.status)
      && r.skills == ParseSkills(input.skills)
      && Merged(r.company, p.company, input.company)
      && Merged(r.location, p.location, input.location)
      && Merged(r.website, p.website, input.website)
      && Merged(r.bio, p.bio, input.bio)
      && Merged(r.githubusername, p.githubusername, input.githubusername)
      && r.social == BuildSocial(input)
      && r.experience == p.experience && r.education == p.education
  {
  }

  /** The outcome of a valid `POST api/profile` for a user without a profile. */
  lemma CreateNew(caller: UserId, input: ProfileInput)
    requires ValidateProfile(input) == []
    ensures var r := NewProfile(AssembleFields(caller, input));
      && r.user == caller
      && r.status == Some(input.status)
      && r.skills == ParseSkills(input.skills)
      && PresentWhenTruthy(r.company, input.company)
      && PresentWhenTruthy(r.location, input.location)
      && PresentWhenTruthy(r.website, input.website)
      && PresentWhenTruthy(r.bio, input.bio)
      && PresentWhenTruthy(r.githubusername, input.githubusername)
      && r.social == BuildSocial(input)
      && r.experience == [] && r.education == []
  {
  }

  /** Posting the same fields again changes nothing, whether the first post created
      the profile or updated it. */
  lemma RepeatedPost(p: Profile, f: Fields)
    ensures ApplySet(ApplySet(p, f), f) == ApplySet(p, f)
    ensures ApplySet(NewProfile(f), f) == NewProfile(f)
  {
  }

  /** A link the current request omits is dropped from `social` even if it was set before. */
  lemma SocialNotMerged(p: Profile, caller: UserId, input: ProfileInput)
    ensures var s := ApplySet(p, AssembleFields(caller, input)).social;
      && (input.youtube == "" ==> s.youtube.None?)
      && (input.twitter == "" ==> s.twitter.None?)
      && (input.instagram == "" ==> s.instagram.None?)
      && (input.linkedin == "" ==> s.linkedin.None?)
      && (input.facebook == "" ==> s.facebook.None?)
  {
  }

  // ------------------------------------------------------ sub-document arrays

  function ExperienceId(e: Experience): EntryId { e.id }

  function EducationId(e: Education): EntryId { e.id }

  /** `entries.map((item) => item.id)`. */
  function Ids<T>(entries: seq<T>, idOf: T -> EntryId): (ids: seq<EntryId>)
    ensures |ids| == |entries|
    ensures forall i :: 0 <= i < |entries| ==> ids[i] == idOf(entries[i])
  {
    if entries == [] then [] else [idOf(entries[0])] + Ids(entries[1..], idOf)
  }

  /** No two entries share an id. */
  predicate DistinctIds<T>(entries: seq<T>, idOf: T -> EntryId)
  {
    forall i, j :: 0 <= i < j < |entries| ==> idOf(entries[i]) != idOf(entries[j])
  }

  /** Every id is below `bound`: all were issued before the id `bound`. */
  predicate IdsBelow<T>(entries: seq<T>, idOf: T -> EntryId, bound: EntryId)
  {
    forall i :: 0 <= i < |entries| ==> idOf(entries[i]) < bound
  }

  /** `entries.splice(entries.map((item) => item.id).indexOf(id), 1)`: a non-empty
      array always loses exactly one entry, whether or not an entry has the id
      (`RemoveByIdEffect` says which one). */
  function RemoveById<T>(entries: seq<T>, idOf: T -> EntryId, id: EntryId): (r: seq<T>)
    ensures |r| == if entries == [] then 0 else |entries| - 1
  {
    Splice(entries, IndexOf(Ids(entries, idOf), id), 1)
  }

  /** Deleting by id: the first entry with that id goes and the rest keep their order;
      when no entry has the id, `indexOf` gives -1 and the splice removes the LAST
      entry; an empty array stays empty. */
  lemma RemoveByIdEffect<T>(entries: seq<T>, idOf: T -> EntryId, id: EntryId)
    ensures var r := RemoveById(entries, idOf, id);
      && (id in Ids(entries, idOf) ==>
            var k := IndexOf(Ids(entries, idOf), id);
            && idOf(entries[k]) == id
            && (forall j :: 0 <= j < k ==> idOf(entries[j]) != id)
            && r == entries[..k] + entries[k + 1..])
      && (id !in Ids(entries, idOf) && entries != [] ==> r == entries[..|entries| - 1])
      && (entries == [] ==> r == [])
  {
    RemoveByIdCases(entries, IndexOf(Ids(entries, idOf), id));
  }

  lemma RemoveByIdCases<T>(entries: seq<T>, k: int)
    requires -1 <= k < |entries|
    ensures 0 <= k ==> Splice(entries, k, 1) == entries[..k] + entries[k + 1..]
    ensures k == -1 && entries != [] ==> Splice(entries, k, 1) == entries[..|entries| - 1]
    ensures entries == [] ==> Splice(entries, k, 1) == []
  {
    if 0 <= k {
      SpliceOneAt(entries, k);
    } else if entries != [] {
      SpliceMinusOneDropsLast(entries);
    }
  }

  /** With distinct ids, deleting an id that occurs leaves no entry with it and
      one entry fewer. */
  lemma RemovePresentId<T>(entries: seq<T>, idOf: T -> EntryId, id: EntryId)
    requires DistinctIds(entries, idOf) && id in Ids(entries, idOf)
    ensures var r := RemoveById(entries, idOf, id);
      |r| == |entries| - 1 && id !in Ids(r, idOf) && DistinctIds(r, idOf)
  {
    RemoveByIdEffect(entries, idOf, id);
    var k := IndexOf(Ids(entries, idOf), id);
    DropOne(entries, idOf, k, 0);
  }

  /** Dropping one entry from a list with distinct ids keeps the ids distinct and
      leaves no entry with the dropped one's id. */
  lemma DropOne<T>(entries: seq<T>, idOf: T -> EntryId, k: nat, bound: EntryId)
    requires k < |entries| && DistinctIds(entries, idOf)
    ensures var r := entries[..k] + entries[k + 1..];
      && |r| == |entries| - 1
      && DistinctIds(r, idOf)
      && (IdsBelow(entries, idOf, bound) ==> IdsBelow(r, idOf, bound))
      && idOf(entries[k]) !in Ids(r, idOf)
  {
    var r := entries[..k] + entries[k + 1..];
    assert forall i :: 0 <= i < |r| ==> r[i] == entries[if i < k then i else i + 1];
  }

  /** Deleting the id of the entry just put at the head gives back the old array. */
  lemma RemoveAfterUnshift<T>(entries: seq<T>, idOf: T -> EntryId, e: T)
    ensures RemoveById([e] + entries, idOf, idOf(e)) == entries
  {
    assert Ids([e] + entries, idOf)[0] == idOf(e);
    assert ([e] + entries)[1..] == entries;
  }

  /** Putting an entry with the next id to issue at the head: the id is unused,
      the ids stay distinct, and all of them are below the one issued after it. */
  lemma UnshiftFreshId<T>(entries: seq<T>, idOf: T -> EntryId, e: T)
    requires DistinctIds(entries, idOf) && IdsBelow(entries, idOf, idOf(e))
    ensures idOf(e) !in Ids(entries, idOf)
    ensures DistinctIds([e] + entries, idOf) && IdsBelow([e] + entries, idOf, idOf(e) + 1)
  {
    var s := [e] + entries;
    assert forall i :: 1 <= i < |s| ==> s[i] == entries[i - 1];
  }

  /** Deleting by id only ever drops an entry, so distinct ids stay distinct and
      issued ids stay issued. */
  lemma RemoveByIdKeeps<T>(entries: seq<T>, idOf: T -> EntryId, id: EntryId, bound: EntryId)
    requires DistinctIds(entries, idOf) && IdsBelow(entries, idOf, bound)
    ensures var r := RemoveById(entries, idOf, id);
      DistinctIds(r, idOf) && IdsBelow(r, idOf, bound)
  {
    RemoveByIdEffect(entries, idOf, id);
    if entries != [] {
      var k := if id in Ids(entries, idOf) then IndexOf(Ids(entries, idOf), id) else |entries| - 1;
      DropOne(entries, idOf, k, bound);
    }
  }
}
