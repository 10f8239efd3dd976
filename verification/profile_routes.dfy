/** The handlers of `routes/api/profile.js` over an in-memory document store:
    the profile collection keyed by user, the post collection and the user
    collection. Each handler is one atomic step on the store. */
module ProfileRoutes {
  import opened JsArrays
  import opened Profiles

  datatype Comment = Comment(user: UserId, text: string)

  /** A post; only its author matters to this resource. */
  datatype Post = Post(id: nat, user: UserId, text: string, comments: seq<Comment>)

  /** What a handler sends back. */
  datatype Reply =
    | ProfileJson(profile: Profile)               // 200, the profile document
    | ProfileList(profiles: seq<Profile>)         // 200, every profile
    | NoProfileMsg(msg: string)                   // 400, `{ msg }`: the caller has no profile
    | NotFoundText(text: string)                  // 400, a bare JSON string: no profile for that user
    | ValidationErrors(errors: seq<FieldError>)   // 400, `{ errors: errors.array() }`
    | UserDeleted                                 // 200, `{ msg: 'User deleted' }`
    | ServerError                                 // 500, 'Server Error'

  function StatusCode(r: Reply): int
  {
    match r
    case ProfileJson(_) => 200
    case ProfileList(_) => 200
    case NoProfileMsg(_) => 400
    case NotFoundText(_) => 400
    case ValidationErrors(_) => 400
    case UserDeleted => 200
    case ServerError => 500
  }

  const NoProfileForUser := "There is no profile for this user"
  const ProfileNotFound := "Profile not found"

  /** `Post.deleteMany({ user })`: the posts of every other author, in their order. */
  function WithoutPostsBy(posts: seq<Post>, user: UserId): (r: seq<Post>)
    ensures forall p :: p in r <==> p in posts && p.user != user
    ensures forall p: Post :: p.user != user ==> multiset(r)[p] == multiset(posts)[p]
    ensures |r| <= |posts|
  {
    if posts == [] then []
    else
      var rest := WithoutPostsBy(posts[1..], user);
      assert posts == [posts[0]] + posts[1..];
      if posts[0].user == user then rest else [posts[0]] + rest
  }

  /** The posts written by `user`, in their order. */
  function PostsBy(posts: seq<Post>, user: UserId): (r: seq<Post>)
    ensures forall p :: p in r <==> p in posts && p.user == user
  {
    if posts == [] then []
    else
      var rest := PostsBy(posts[1..], user);
      if posts[0].user == user then [posts[0]] + rest else rest
  }

  /** Deleting one author's posts leaves every other author's posts exactly as they were,
      order included, and leaves none of that author's. */
  lemma {:induction false} OtherAuthorsUntouched(posts: seq<Post>, user: UserId, other: UserId)
    requires other != user
    ensures PostsBy(WithoutPostsBy(posts, user), other) == PostsBy(posts, other)
    ensures PostsBy(WithoutPostsBy(posts, user), user) == []
  {
    if posts != [] {
      OtherAuthorsUntouched(posts[1..], user, other);
      var rest := WithoutPostsBy(posts[1..], user);
      if posts[0].user != user {
        assert WithoutPostsBy(posts, user) == [posts[0]] + rest;
        assert ([posts[0]] + rest)[1..] == rest;
      }
    }
  }

  /** A stored profile belongs to the user it is filed under, and its entry ids are
      distinct and below the next id the store hands out. */
  ghost predicate WellFormed(p: Profile, user: UserId, nextId: EntryId)
  {
    && p.user == user
    && DistinctIds(p.experience, ExperienceId)
    && DistinctIds(p.education, EducationId)
    && IdsBelow(p.experience, ExperienceId, nextId)
    && IdsBelow(p.education, EducationId, nextId)
  }

  ghost predicate AllWellFormed(profiles: map<UserId, Profile>, nextId: EntryId)
  {
    forall u :: u in profiles ==> WellFormed(profiles[u], u, nextId)
  }

  /** Filing a well-formed profile under its user keeps every profile well formed. */
  lemma FileProfile(profiles: map<UserId, Profile>, user: UserId, p: Profile, nextId: EntryId)
    requires AllWellFormed(profiles, nextId) && WellFormed(p, user, nextId)
    ensures AllWellFormed(profiles[user := p], nextId)
  {
  }

  /** Filing a profile under its user while the next id moves on by one keeps every
      profile well formed. */
  lemma FileProfileIssuingId(profiles: map<UserId, Profile>, user: UserId, p: Profile, nextId: EntryId)
    requires AllWellFormed(profiles, nextId) && WellFormed(p, user, nextId + 1)
    ensures AllWellFormed(profiles[user := p], nextId + 1)
  {
    forall u | u in profiles ensures WellFormed(profiles[u], u, nextId + 1) {
      assert WellFormed(profiles[u], u, nextId);
    }
  }

  /** Putting an experience entry carrying the next id at the head keeps a profile
      well formed once that id counts as issued. */
  lemma UnshiftExperienceKeepsWellFormed(p: Profile, user: UserId, nextId: EntryId, e: Experience)
    requires WellFormed(p, user, nextId) && e.id == nextId
    ensures WellFormed(p.(experience := [e] + p.experience), user, nextId + 1)
  {
    UnshiftFreshId(p.experience, ExperienceId, e);
    assert IdsBelow(p.education, EducationId, nextId + 1);
  }

  /** The same for an education entry. */
  lemma UnshiftEducationKeepsWellFormed(p: Profile, user: UserId, nextId: EntryId, e: Education)
    requires WellFormed(p, user, nextId) && e.id == nextId
    ensures WellFormed(p.(education := [e] + p.education), user, nextId + 1)
  {
    UnshiftFreshId(p.education, EducationId, e);
    assert IdsBelow(p.experience, ExperienceId, nextId + 1);
  }

  /** Deleting an experience or education entry keeps a profile well formed. */
  lemma RemoveKeepsWellFormed(p: Profile, user: UserId, nextId: EntryId, id: EntryId)
    requires WellFormed(p, user, nextId)
    ensures WellFormed(p.(experience := RemoveById(p.experience, ExperienceId, id)), user, nextId)
    ensures WellFormed(p.(education := RemoveById(p.education, EducationId, id)), user, nextId)
  {
    RemoveByIdKeeps(p.experience, ExperienceId, id, nextId);
    RemoveByIdKeeps(p.education, EducationId, id, nextId);
  }

  /** Filing the result of a `$set` or of a creation with the caller's fields under the
      caller keeps every profile well formed. */
  lemma UpsertKeepsAll(profiles: map<UserId, Profile>, user: UserId, nextId: EntryId, f: Fields)
    requires AllWellFormed(profiles, nextId) && f.user == user
    ensures var p := if user in profiles then ApplySet(profiles[user], f) else NewProfile(f);
      AllWellFormed(profiles[user := p], nextId)
  {
    var p := if user in profiles then ApplySet(profiles[user], f) else NewProfile(f);
    assert WellFormed(p, user, nextId);
    FileProfile(profiles, user, p, nextId);
  }

  /** Deleting an experience entry from a filed profile keeps every profile well formed. */
  lemma DeleteExperienceKeepsAll(profiles: map<UserId, Profile>, user: UserId, nextId: EntryId, id: EntryId)
    requires AllWellFormed(profiles, nextId) && user in profiles
    ensures var p := profiles[user];
      AllWellFormed(profiles[user := p.(experience := RemoveById(p.experience, ExperienceId, id))], nextId)
  {
    var p := profiles[user];
    RemoveKeepsWellFormed(p, user, nextId, id);
    FileProfile(profiles, user, p.(experience := RemoveById(p.experience, ExperienceId, id)), nextId);
  }

  /** The same for an education entry. */
  lemma DeleteEducationKeepsAll(profiles: map<UserId, Profile>, user: UserId, nextId: EntryId, id: EntryId)
    requires AllWellFormed(profiles, nextId) && user in profiles
    ensures var p := profiles[user];
      AllWellFormed(profiles[user := p.(education := RemoveById(p.education, EducationId, id))], nextId)
  {
    var p := profiles[user];
    RemoveKeepsWellFormed(p, user, nextId, id);
    FileProfile(profiles, user, p.(education := RemoveById(p.education, EducationId, id)), nextId);
  }

  class Store {
    var profiles: map<UserId, Profile>
    var posts: seq<Post>
    var users: set<UserId>
    /** Stands for the store's id generator for sub-documents. */
    var nextEntryId: EntryId

    ghost predicate Valid()
      reads this
    {
      AllWellFormed(profiles, nextEntryId)
    }

    /** A store holding the given users and posts and no profile yet. */
    constructor (users: set<UserId>, posts: seq<Post>)
      ensures Valid()
      ensures this.users == users && this.posts == posts && profiles == map[]
    {
      this.users := users;
      this.posts := posts;
      profiles := map[];
      nextEntryId := 0;
    }

    /** `GET api/profile/me`. */
    method GetMe(caller: UserId) returns (reply: Reply)
      ensures caller in profiles ==> reply == ProfileJson(profiles[caller]) && StatusCode(reply) == 200
      ensures caller !in profiles ==> reply == NoProfileMsg(NoProfileForUser) && StatusCode(reply) == 400
    {
      if caller in profiles {
        reply := ProfileJson(profiles[caller]);
      } else {
        reply := NoProfileMsg(NoProfileForUser);
      }
    }

    /** `GET api/profile/user/:user_id`. */
    method GetByUser(userId: UserId) returns (reply: Reply)
      ensures userId in profiles ==> reply == ProfileJson(profiles[userId]) && StatusCode(reply) == 200
      ensures userId !in profiles ==> reply == NotFoundText(ProfileNotFound) && StatusCode(reply) == 400
    {
      if userId in profiles {
        reply := ProfileJson(profiles[userId]);
      } else {
        reply := NotFoundText(ProfileNotFound);
      }
    }

    /** `GET api/profile`: every stored profile, once each. */
    method ListAll() returns (reply: Reply)
      requires Valid()
      ensures reply.ProfileList? && |reply.profiles| == |profiles|
      ensures forall u :: u in profiles ==> profiles[u] in reply.profiles
      ensures forall i :: 0 <= i < |reply.profiles| ==> reply.profiles[i] in profiles.Values
      ensures forall i, j :: 0 <= i < j < |reply.profiles| ==> reply.profiles[i].user != reply.profiles[j].user
    {
      var result: seq<Profile> := [];
      var rest := profiles.Keys;
      while rest != {}
        invariant rest <= profiles.Keys
        invariant |result| + |rest| == |profiles|
        invariant forall u :: u in profiles.Keys - rest ==> profiles[u] in result
        invariant forall i :: 0 <= i < |result| ==> result[i] in profiles.Values
        invariant forall i :: 0 <= i < |result| ==> result[i].user in profiles.Keys - rest
        invariant forall i, j :: 0 <= i < j < |result| ==> result[i].user != result[j].user
        decreases rest
      {
        var u :| u in rest;
        assert profiles[u].user == u;
        result := result + [profiles[u]];
        rest := rest - {u};
      }
      reply := ProfileList(result);
    }

    /** `POST api/profile`: validate, assemble the fields, then update the caller's
        profile with `$set` or create it. */
    method CreateOrUpdate(caller: UserId, input: ProfileInput) returns (reply: Reply)
      requires Valid()
      modifies this
      ensures Valid()
      ensures posts == old(posts) && users == old(users) && nextEntryId == old(nextEntryId)
      ensures ValidateProfile(input) != [] ==>
        reply == ValidationErrors(ValidateProfile(input)) && profiles == old(profiles)
      ensures ValidateProfile(input) == [] ==>
        var f := AssembleFields(caller, input);
        var p := if caller in old(profiles) then ApplySet(old(profiles)[caller], f) else NewProfile(f);
        profiles == old(profiles)[caller := p] && reply == ProfileJson(p)
    {
      var errors := ValidateProfile(input);
      if errors != [] {
        return ValidationErrors(errors);
      }
      var fields := AssembleFields(caller, input);
      UpsertKeepsAll(profiles, caller, nextEntryId, fields);
      var p;
      if caller in profiles {
        p := ApplySet(profiles[caller], fields);
      } else {
        p := NewProfile(fields);
      }
      profiles := profiles[caller := p];
      reply := ProfileJson(p);
    }

    /** `DELETE api/profile`: the caller's posts, then the profile, then the user record. */
    method DeleteAccount(caller: UserId) returns (reply: Reply)
      requires Valid()
      modifies this
      ensures Valid()
      ensures posts == WithoutPostsBy(old(posts), caller)
      ensures profiles == old(profiles) - {caller}
      ensures users == old(users) - {caller}
      ensures nextEntryId == old(nextEntryId)
      ensures reply == UserDeleted
    {
      posts := WithoutPostsBy(posts, caller);
      profiles := profiles - {caller};
      users := users - {caller};
      reply := UserDeleted;
    }

    /** `PUT api/profile/experience`: validate, then put the new entry, with a fresh
        id, at the head of the caller's experience. With no profile the handler
        dereferences null and answers 500. */
    method AddExperience(caller: UserId, input: ExperienceInput) returns (reply: Reply)
      requires Valid()
      modifies this
      ensures Valid()
      ensures posts == old(posts) && users == old(users)
      ensures ValidateExperience(input) != [] ==>
        reply == ValidationErrors(ValidateExperience(input)) && unchanged(this)
      ensures ValidateExperience(input) == [] && caller !in old(profiles) ==>
        reply == ServerError && unchanged(this)
      ensures ValidateExperience(input) == [] && caller in old(profiles) ==>
        var p := old(profiles)[caller];
        var e := Experience(old(nextEntryId), input.title, input.company, input.location,
                            input.from, input.to, input.current, input.description);
        var p' := p.(experience := [e] + p.experience);
        && e.id !in Ids(p.experience, ExperienceId)
        && profiles == old(profiles)[caller := p']
        && reply == ProfileJson(p')
        && nextEntryId == old(nextEntryId) + 1
    {
      var errors := ValidateExperience(input);
      if errors != [] {
        return ValidationErrors(errors);
      }
      if caller !in profiles {
        return ServerError;
      }
      var p := profiles[caller];
      var e := Experience(nextEntryId, input.title, input.company, input.location,
                          input.from, input.to, input.current, input.description);
      UnshiftFreshId(p.experience, ExperienceId, e);
      UnshiftExperienceKeepsWellFormed(p, caller, nextEntryId, e);
      p := p.(experience := [e] + p.experience);
      FileProfileIssuingId(profiles, caller, p, nextEntryId);
      profiles := profiles[caller := p];
      nextEntryId := nextEntryId + 1;
      reply := ProfileJson(p);
    }

    /** `DELETE api/profile/experience/:exp_id`. */
    method DeleteExperience(caller: UserId, id: EntryId) returns (reply: Reply)
      requires Valid()
      modifies this
      ensures Valid()
      ensures posts == old(posts) && users == old(users) && nextEntryId == old(nextEntryId)
      ensures caller !in old(profiles) ==> reply == ServerError && profiles == old(profiles)
      ensures caller in old(profiles) ==>
        var p := old(profiles)[caller];
        var p' := p.(experience := RemoveById(p.experience, ExperienceId, id));
        profiles == old(profiles)[caller := p'] && reply == ProfileJson(p')
    {
      if caller !in profiles {
        return ServerError;
      }
      DeleteExperienceKeepsAll(profiles, caller, nextEntryId, id);
      var p := profiles[caller];
      p := p.(experience := RemoveById(p.experience, ExperienceId, id));
      profiles := profiles[caller := p];
      reply := ProfileJson(p);
    }

    /** `PUT api/profile/education`, the counterpart of `AddExperience`. */
    method AddEducation(caller: UserId, input: EducationInput) returns (reply: Reply)
      requires Valid()
      modifies this
      ensures Valid()
      ensures posts == old(posts) && users == old(users)
      ensures ValidateEducation(input) != [] ==>
        reply == ValidationErrors(ValidateEducation(input)) && unchanged(this)
      ensures ValidateEducation(input) == [] && caller !in old(profiles) ==>
        reply == ServerError && unchanged(this)
      ensures ValidateEducation(input) == [] && caller in old(profiles) ==>
        var p := old(profiles)[caller];
        var e := Education(old(nextEntryId), input.school, input.degree, input.fieldofstudy,
                           input.from, input.to, input.current, input.description);
        var p' := p.(education := [e] + p.education);
        && e.id !in Ids(p.education, EducationId)
        && profiles == old(profiles)[caller := p']
        && reply == ProfileJson(p')
        && nextEntryId == old(nextEntryId) + 1
    {
      var errors := ValidateEducation(input);
      if errors != [] {
        return ValidationErrors(errors);
      }
      if caller !in profiles {
        return ServerError;
      }
      var p := profiles[caller];
      var e := Education(nextEntryId, input.school, input.degree, input.fieldofstudy,
                         input.from, input.to, input.current, input.description);
      UnshiftFreshId(p.education, EducationId, e);
      UnshiftEducationKeepsWellFormed(p, caller, nextEntryId, e);
      p := p.(education := [e] + p.education);
      FileProfileIssuingId(profiles, caller, p, nextEntryId);
      profiles := profiles[caller := p];
      nextEntryId := nextEntryId + 1;
      reply := ProfileJson(p);
    }

    /** `DELETE api/profile/education/:edu_id`. */
    method DeleteEducation(caller: UserId, id: EntryId) returns (reply: Reply)
      requires Valid()
      modifies this
      ensures Valid()
      ensures posts == old(posts) && users == old(users) && nextEntryId == old(nextEntryId)
      ensures caller !in old(profiles) ==> reply == ServerError && profiles == old(profiles)
      ensures caller in old(profiles) ==>
        var p := old(profiles)[caller];
        var p' := p.(education := RemoveById(p.education, EducationId, id));
        profiles == old(profiles)[caller := p'] && reply == ProfileJson(p')
    {
      if caller !in profiles {
        return ServerError;
      }
      DeleteEducationKeepsAll(profiles, caller, nextEntryId, id);
      var p := profiles[caller];
      p := p.(education := RemoveById(p.education, EducationId, id));
      profiles := profiles[caller := p];
      reply := ProfileJson(p);
    }
  }
}
