# DevConnector profile resource, modelled in Dafny

This project models the profile REST resource of the DevConnector application
(`routes/api/profile.js`). In the application, Express handlers work on a MongoDB
store through Mongoose. Here that store is an in-memory `Store` object with four
fields:

- `profiles`: a map from user id to profile document;
- `posts`: the post collection, each post tagged with its author;
- `users`: the set of user ids;
- `nextEntryId`: stands in for the store's generator of sub-document ids.

Each handler is one method of `Store`. It returns the reply the handler sends and
changes the store the way the Mongoose calls do.

The value-level logic has its own modules:

- `JsStrings` (`js_strings.dfy`): the JavaScript `split` and `trim` built-ins. `trim` uses
  the ECMAScript whitespace and line-terminator set.
- `JsArrays` (`js_arrays.dfy`): `indexOf` and `splice`. `splice` follows the standard's
  normalisation of a negative start.
- `Profiles` (`profiles.dfy`): the profile document and request bodies, the `not().isEmpty()`
  validation chains, assembly of `profileFields`, the `$set` update, profile creation,
  and removal of a sub-document by id.
- `ProfileRoutes` (`profile_routes.dfy`): the `Store` class, its handlers and its invariant.
  The invariant says each stored profile is filed under its own user, and its
  experience and education ids are distinct and were issued by the store.

A request body field is a string, and a missing field is modelled as `""`. For the
profile fields this loses nothing: the handler's truthiness tests and the validator's
`isEmpty` treat a missing field and `""` alike. For the optional fields of a new
experience or education entry it does lose a distinction (see "Left out").

The model follows the code where its behaviour is surprising:

- Deleting an experience or education entry whose id matches nothing does not leave
  the list alone. `indexOf` returns -1, and `splice(-1, 1)` removes the last entry
  of a non-empty list (`routes/api/profile.js:204-206`, `:270-272`). A reader might
  expect a no-op here.
- `GET api/profile` (`routes/api/profile.js:102`) carries no `auth` middleware, so the
  list of all profiles is public.
- Adding or deleting an entry when the caller has no profile dereferences `null`.
  The surrounding `catch` turns that into a 500 `'Server Error'` reply, and the
  store is unchanged.

## Model

| member | source | states |
|---|---|---|
| JsStrings.TrimStart | routes/api/profile.js:69 | the result is no longer than the input and does not start with whitespace |
| JsStrings.TrimStartSuffix | routes/api/profile.js:69 | dropping leading whitespace keeps a suffix of the input, and every dropped character is whitespace |
| JsStrings.TrimEnd | routes/api/profile.js:69 | the result is no longer than the input, starts with the input's first character, and does not end with whitespace |
| JsStrings.TrimEndPrefix | routes/api/profile.js:69 | dropping trailing whitespace keeps a prefix of the input, and every dropped character is whitespace |
| JsStrings.Trim | routes/api/profile.js:69 | `trim()` gives a string that neither starts nor ends with whitespace and is no longer than the input |
| JsStrings.TrimSlice | routes/api/profile.js:69 | the result of `trim()` is one contiguous slice of the input, with only whitespace before and after it |
| JsStrings.TrimKeepsAbsent | routes/api/profile.js:69 | `trim()` introduces no character, so a skill cut out between commas never contains a comma |
| JsStrings.SliceOfSlice | routes/api/profile.js:69 | a whitespace-bounded prefix of a whitespace-bounded suffix is a slice of the original with only whitespace around it |
| JsStrings.TrimFixesTrimmed | routes/api/profile.js:69 | a string with no whitespace at its ends is left unchanged by `trim()` |
| JsStrings.TrimIdempotent | routes/api/profile.js:69 | trimming twice is the same as trimming once |
| JsStrings.Split | routes/api/profile.js:69 | `split(',')` gives at least one piece, and no piece contains a comma |
| JsStrings.SplitCount | routes/api/profile.js:69 | `split(',')` gives exactly one more piece than the input has commas |
| JsStrings.JoinSplit | routes/api/profile.js:69 | joining the pieces of `split` with the separator gives back the input |
| JsStrings.SplitJoin | routes/api/profile.js:69 | splitting a join of separator-free pieces gives back the pieces |
| JsStrings.JoinPrepend | routes/api/profile.js:69 | putting a character in front of the first piece puts it in front of the joined string |
| JsStrings.SplitPiece | routes/api/profile.js:69 | a separator-free prefix is glued to the first piece of the split of the rest |
| JsArrays.IndexOf | routes/api/profile.js:204 | `indexOf` returns -1 exactly when the value is absent, and otherwise the index of its first occurrence |
| JsArrays.SpliceStart | routes/api/profile.js:206 | a negative splice start counts from the end and is clamped at 0; a start past the end is clamped at the length |
| JsArrays.DeleteCount | routes/api/profile.js:206 | the number of elements `splice` removes is the requested count when that many remain, 0 for a negative count, and the number remaining for a larger one |
| JsArrays.Splice | routes/api/profile.js:206 | `splice(start, n)` keeps everything before the normalised start, and removes at most `n` elements and never more than remain |
| JsArrays.SpliceOneAt | routes/api/profile.js:206 | `splice(i, 1)` at a valid index removes exactly element `i` and keeps the order of the rest |
| JsArrays.SpliceMinusOneDropsLast | routes/api/profile.js:206 | `splice(-1, 1)` on a non-empty array removes its last element |
| JsArrays.SpliceMinusOneOnEmpty | routes/api/profile.js:206 | `splice(-1, 1)` on an empty array leaves it empty |
| Profiles.ErrorIfEmpty | routes/api/profile.js:36-42 | one not-empty check contributes its own error exactly when its value is empty, and nothing otherwise |
| Profiles.CheckNotEmpty | routes/api/profile.js:36-42 | a chain of not-empty checks yields no error exactly when every value is non-empty; each empty value yields its field's error, and every error comes from an empty value |
| Profiles.CheckThree | routes/api/profile.js:158-168 | a chain of three checks reports the failing ones in declaration order, each once |
| Profiles.ValidateProfile | routes/api/profile.js:36-42 | a profile post is accepted exactly when `status` and `skills` are non-empty; the error list is exactly the `status` error if it is missing followed by the `skills` error if it is missing |
| Profiles.ValidateExperience | routes/api/profile.js:158-168 | an experience entry is accepted exactly when `title`, `company` and `from` are non-empty; the error list is exactly the errors of the missing ones, in that order |
| Profiles.ValidateEducation | routes/api/profile.js:224-234 | an education entry is accepted exactly when `school`, `degree` and `fieldofstudy` are non-empty; the error list is exactly the errors of the missing ones, in that order; `from` is not required |
| Profiles.IfTruthy | routes/api/profile.js:62-67 | a field is written exactly when its request value is a non-empty string, and then it holds that value |
| Profiles.TrimEach | routes/api/profile.js:69 | `map((skill) => skill.trim())` gives one trimmed element per piece, piece `i` giving element `i` |
| Profiles.TrimEachKeepsAbsent | routes/api/profile.js:69 | a character absent from every piece is absent from every trimmed piece |
| Profiles.TrimEachFixesTrimmed | routes/api/profile.js:69 | pieces with no whitespace at their ends come through the trimming map unchanged |
| Profiles.ParseSkills | routes/api/profile.js:68-70 | the stored skills number one more than the commas in the input; no skill has whitespace at its ends or contains a comma |
| Profiles.ParseSkillsPieces | routes/api/profile.js:69 | skill `i` is piece `i` of the comma split, trimmed, so input order is kept |
| Profiles.ParseSkillsLossless | routes/api/profile.js:69 | when no piece has whitespace at its ends, the stored skills joined with commas give back the submitted string |
| Profiles.BuildSocial | routes/api/profile.js:73-78 | the rebuilt `social` object holds exactly the links the request supplies as non-empty strings |
| Profiles.AssembleFields | routes/api/profile.js:60-78 | `user` is always the caller; each scalar field is present exactly when its input is non-empty; skills are present exactly when `skills` is non-empty, and then are the comma-split, trimmed list of `skills`; `social` is the rebuilt object |
| Profiles.ApplySet | routes/api/profile.js:84 | `$set` takes `user` and the whole `social` object from the update; each scalar and `skills` takes the update's value when the update carries one and keeps the stored value otherwise; the experience and education arrays are kept |
| Profiles.NewProfile | routes/api/profile.js:88-89 | a created profile holds exactly the assembled fields, skills empty when none were sent, with empty experience and education arrays |
| Profiles.UpdateExisting | routes/api/profile.js:81-85 | after a valid post on an existing profile, `status` and `skills` are the new ones; each other scalar is the new value if one was sent and the old one if not; `social` is replaced; the sub-document arrays are kept |
| Profiles.CreateNew | routes/api/profile.js:86-90 | a valid post without a profile creates one whose scalars are present exactly when sent, with the parsed skills and empty arrays |
| Profiles.RepeatedPost | routes/api/profile.js:81-91 | posting the same fields a second time changes nothing, whether the first post created or updated the profile |
| Profiles.SocialNotMerged | routes/api/profile.js:73-84 | each of the five links (youtube, twitter, instagram, linkedin, facebook) that the current request omits is absent from `social` after the update, whatever was stored before |
| Profiles.Ids | routes/api/profile.js:204 | `map((item) => item.id)` gives one id per entry, in order |
| Profiles.RemoveById | routes/api/profile.js:204-206 | deleting by id always removes exactly one entry from a non-empty list, even when no entry has the id, and leaves an empty list empty |
| Profiles.RemoveByIdCases | routes/api/profile.js:206 | splicing one element at an `indexOf` result removes that index; at -1 it removes the last element of a non-empty array, and it leaves an empty array empty |
| Profiles.RemoveByIdEffect | routes/api/profile.js:204-206 | deleting by id removes the first entry with that id and keeps the order of the rest; an unknown id removes the last entry of a non-empty list; an empty list stays empty |
| Profiles.RemovePresentId | routes/api/profile.js:204-206 | with distinct ids, deleting an id that occurs leaves one entry fewer and no entry with that id |
| Profiles.RemoveAfterUnshift | routes/api/profile.js:185-206 | deleting the id of the entry just put at the head gives back the list as it was before the add |
| Profiles.UnshiftFreshId | routes/api/profile.js:185 | an entry whose id is above every id in the list has an unused id; putting it at the head keeps the ids distinct, and all ids stay below the next one |
| Profiles.DropOne | routes/api/profile.js:206 | removing one entry from a list with distinct ids keeps the ids distinct and below any bound they were below, and leaves no entry with the removed entry's id |
| Profiles.RemoveByIdKeeps | routes/api/profile.js:204-206 | deleting by id only drops entries, so distinct ids stay distinct |
| ProfileRoutes.WithoutPostsBy | routes/api/profile.js:138 | `deleteMany({ user })` leaves exactly the posts of other authors, each as many times as before |
| ProfileRoutes.PostsBy | routes/api/profile.js:138 | the posts selected by a `{ user }` filter are exactly those written by that user |
| ProfileRoutes.OtherAuthorsUntouched | routes/api/profile.js:138 | after one author's posts are deleted, every other author's posts are exactly as before, order included, and none of that author's remain |
| ProfileRoutes.FileProfile | routes/api/profile.js:84-90 | writing a well-formed profile under its own user keeps the whole store well formed |
| ProfileRoutes.FileProfileIssuingId | routes/api/profile.js:185-187 | the same while one more sub-document id is issued |
| ProfileRoutes.UnshiftExperienceKeepsWellFormed | routes/api/profile.js:172-187 | adding an experience entry with a freshly issued id at the head keeps the profile well formed |
| ProfileRoutes.UnshiftEducationKeepsWellFormed | routes/api/profile.js:238-253 | adding an education entry with a freshly issued id at the head keeps the profile well formed |
| ProfileRoutes.UpsertKeepsAll | routes/api/profile.js:81-90 | filing the `$set` result or the newly created profile under the caller keeps the whole store well formed |
| ProfileRoutes.RemoveKeepsWellFormed | routes/api/profile.js:204-208 | deleting an experience or education entry keeps a profile filed under its user with distinct, issued ids |
| ProfileRoutes.DeleteExperienceKeepsAll | routes/api/profile.js:200-208 | deleting an experience entry from a stored profile keeps the whole store well formed |
| ProfileRoutes.DeleteEducationKeepsAll | routes/api/profile.js:266-274 | deleting an education entry from a stored profile keeps the whole store well formed |
| ProfileRoutes.Store.GetMe | routes/api/profile.js:14-27 | the caller's profile if there is one, otherwise a 400 reply with the object `{ msg: 'There is no profile for this user' }` |
| ProfileRoutes.Store.GetByUser | routes/api/profile.js:115-130 | the profile of the given user if there is one, otherwise a 400 reply with the bare string 'Profile not found' |
| ProfileRoutes.Store.ListAll | routes/api/profile.js:102-110 | every stored profile appears in the list, the list has one element per stored profile, no user's profile appears twice, and it holds nothing else |
| ProfileRoutes.Store.CreateOrUpdate | routes/api/profile.js:32-97 | invalid input gives the error list and leaves the store unchanged; valid input updates the caller's profile with `$set` or creates it; other users' profiles, posts and users are unchanged; the invariant is kept |
| ProfileRoutes.Store.DeleteAccount | routes/api/profile.js:135-149 | afterwards no post by the caller remains; the caller has no profile and no user record; everything else is untouched |
| ProfileRoutes.Store.AddExperience | routes/api/profile.js:154-195 | invalid input gives the error list and no change; a caller without a profile gets 500 and no change; otherwise the new entry, with a fresh id, is at index 0 and the old entries follow in order |
| ProfileRoutes.Store.DeleteExperience | routes/api/profile.js:200-215 | a caller without a profile gets 500 and no change; otherwise the experience list becomes the result of deleting by id and the invariant is kept |
| ProfileRoutes.Store.AddEducation | routes/api/profile.js:220-261 | as AddExperience, for the education list and its own required fields |
| ProfileRoutes.Store.DeleteEducation | routes/api/profile.js:266-281 | as DeleteExperience, for the education list |

## Left out

- The GitHub repository proxy (`routes/api/profile.js:286-311`) is left out. It is an outbound HTTP call that uses configured secrets and parses the remote JSON body.
- `populate('user', ['name', 'avatar'])` is left out. It is a join through the User model, which is not part of this model. Lookups return the stored profile.
- Express routing and the `auth` middleware are left out. The caller's user id is a parameter of each handler.
- The internals of `express-validator` are left out. Validation is modelled only as a check that each required field is present and non-empty. The validator also looks outside the body (in params, query and so on), which is not modelled.
- The optional fields of a new entry (`location`, `to` and `description` for experience; `from`, `to` and `description` for education) are copied into it with no truthiness test (`routes/api/profile.js:170-180`, `:236-246`). A field missing from the body is therefore absent from the stored sub-document, while `""` is stored as `""`. The model stores `""` in both cases, so it does not tell a missing field from an empty one.
- Request bodies are modelled as strings, plus a boolean `current`. A JSON body that carries numbers, arrays or objects in these fields is not modelled.
- Schema-level validation and casting by the Profile model (`models/Profile`) are left out; that file is not part of this model. This includes required schema fields, date casting of `from`/`to`, and defaults such as `date`. If the schema rejected a save, the model would still answer with the profile. The real handler answers 500 for the entry handlers, and sends no reply at all for `POST api/profile` (see the next-but-one line).
- Mongoose ObjectId cast errors (`routes/api/profile.js:125-127`) are left out. They give the same 400 'Profile not found' reply as an absent profile.
- Logging with `console.error` is left out.
- The broken error reply at `routes/api/profile.js:94` is left out. `json` there is an undefined name, so the catch block itself throws and `POST api/profile` sends no reply at all. That path is taken whenever the lookup, the `$set` update or the save of a new profile fails, including a save the Profile schema rejects. Store failures and schema validation are not modelled, so the model never takes it.
- Sub-document ids come from a counter in the store, not from ObjectIds. Each id is fresh, which is the only property the handlers rely on.
- Concurrent requests and their read-modify-write races are left out. Each handler is one atomic step. So are partial failures of the three-step account delete.
- Profile documents are values in a map. Aliasing between the loaded Mongoose document and the stored one is not modelled.
- ProfileRoutes.Store.ListAll: does not state the order of the list, because the store returns profiles in its own natural order, which the model does not fix.
- Characters are Unicode code points, not UTF-16 code units. This makes no difference to `split(',')` or `trim()`, since every character `trim` strips is in the Basic Multilingual Plane.
