# libsession-util config objects: a Dafny model

This project models three of the config objects in libsession-util, which
keep a Session client's synchronised state.

- **The user-groups conversation list** (`user_groups.h`) has three parts:
  - **Community conversations.** Each is keyed by a normalised base URL plus a room token. Lookup ignores the case of the room token, but the stored record keeps the case it was set with.
  - **Legacy (closed) group conversations.** Each is keyed by a 66-hex-digit group id. Each record carries a member table of session ids with admin flags.
  - **Iterators and counts.** A cursor walks a group's members and can erase the current one. An iterator walks the whole list, or one kind of conversation, and can erase and advance. Size counters report how many conversations there are.
- **The user profile** (`user_profile.hpp`). The profile name and the profile picture are kept in a key-value store under the reserved keys `n`, `p` and `q`. The object also names its storage namespace and encryption domain.
- **The storage namespaces** (`namespaces.hpp`). Each namespace has a signed 16-bit number.

The headers document behaviour rather than implement it, so the model follows their comments. The operations' contracts state what the comments say about them. Where a comment is silent, the model makes a choice, and "## Left out" names it.

Objects the caller changes in place are classes whose methods carry `modifies` clauses:

- the conversation list, `UserGroups.UserGroups`;
- a legacy group handed to the caller, `LegacyGroups.LegacyGroup`;
- the two cursors, `LegacyGroups.MemberCursor` and `UserGroups.ConvoIterator`;
- the profile, `UserProfileConfig.UserProfile`.

Each method is proved against value-level functions. `CommunityTable`, `LegacyTable`, `Members` and `Conversations` give the content of a table. `NameOf`, `PicOf`, `WithName` and `WithPic` state the profile rules.

Files:

- `common.dfy`: `Option` and `byte`.
- `text.dfy`: ASCII case folding, the session-id format, byte order on ids, and base-URL normalisation.
- `tables.dfy`: a sequence with unique keys, viewed as a map, and how insert, replace and delete change that map.
- `legacy_groups.dfy`: the legacy group record, its member table and the member cursor.
- `user_groups.dfy`: the community record and the conversation list with its iterator.
- `namespaces.dfy`: the namespace numbers.
- `user_profile.dfy`: the profile rules and the profile object.

## Model

| member | source | states |
|---|---|---|
| Text.Lower | include/session/config/user_groups.h:43-44 | the result is the input with every ASCII capital lowered, same length, and contains no capital |
| Text.SameIgnoringCaseIsEquivalence | include/session/config/user_groups.h:66-68 | case-insensitive room matching is reflexive, symmetric and transitive |
| Text.TrimTrailingSlashes | include/session/config/user_groups.h:43-44 | the result is a prefix of the input, does not end in '/', and only '/' was removed |
| Text.StripDefaultPort | include/session/config/user_groups.h:43-44 | the result is the host itself, or the host minus a trailing default port (":443" for https, ":80" for http) that was the host's own port (a ':' after any ']' or '@'), and then it has no port left |
| Text.StripWrittenDefaultPort | include/session/config/user_groups.h:43-44 | a host with no port of its own, followed by the scheme's default port, loses exactly that port |
| Text.StripDefaultPortIdempotent | include/session/config/user_groups.h:43-44 | stripping the default port twice is the same as stripping it once |
| Text.NormalizeUrl | include/session/config/user_groups.h:43-44 | a normalised base URL is lower case and no longer than the input |
| Text.NormalizedHasNoTrailingSlash | include/session/config/user_groups.h:43-44 | a normalised URL ends in '/' only when it is nothing but a scheme |
| Text.NormalizeDropsDefaultPort | include/session/config/user_groups.h:43-44 | "scheme://host:default-port/path/" normalises to "scheme://host/path" for both http (80) and https (443) |
| Text.NormalizeUrlIdempotent | include/session/config/user_groups.h:43-44 | normalising twice is the same as normalising once, so a stored base URL is a stable key |
| Text.NormalizeUrlOfLower | include/session/config/user_groups.h:43-44 | the case a URL is written in does not change its normalised form |
| Text.NormalizeIgnoresCaseAndDefaultPort | include/session/config/user_groups.h:43-44 | "scheme://Host:default-port" followed by any number of '/' normalises to "scheme://host", the host lower-cased |
| Text.NormalizePlainHost | include/session/config/user_groups.h:43-44 | "scheme://Host" with no port normalises to "scheme://host", the host lower-cased |
| Text.BeforeTotal | include/session/config/user_groups.h:143-156 | the byte order members are kept in is total: two distinct ids are ordered one way |
| Text.BeforeTransitive | include/session/config/user_groups.h:143-156 | the member order is transitive |
| LegacyGroups.AdminCount | include/session/config/user_groups.h:181-185 | the admin count never exceeds the number of members |
| LegacyGroups.DefaultRecord | include/session/config/user_groups.h:103-104 | a new group record has the given id, every field at its default and no members, and is well formed |
| LegacyGroups.LegacyGroup.Add | include/session/config/user_groups.h:170-174 | reports true iff the id is valid and the member was absent or had the other admin flag; then the member has exactly that flag and no other member changes; otherwise the table is unchanged |
| LegacyGroups.LegacyGroup.Remove | include/session/config/user_groups.h:176-179 | reports true iff the id was present; afterwards the id is absent and every other member is unchanged, so a second remove reports false |
| LegacyGroups.LegacyGroup.Count | include/session/config/user_groups.h:181-185 | the total is the number of members, equals non-admins plus admins, and the admins are the members with the flag |
| LegacyGroups.LegacyGroup.Begin | include/session/config/user_groups.h:143-154 | a fresh cursor over this group, before the first member |
| LegacyGroups.FirstAfter | include/session/config/user_groups.h:155-156 | the position of the first member whose id sorts after the last id produced: every member before it sorts no later, and the one there sorts later |
| LegacyGroups.FirstAfterSplits | include/session/config/user_groups.h:155-156 | in the sorted member table, a member sorts after the last id produced iff it is at or past that position |
| LegacyGroups.MemberCursor.Next | include/session/config/user_groups.h:155-156 | only on an open cursor: produces the first member whose id sorts after the last one produced (the first member on the first call) and remembers its id, or nothing at the end; members added or erased meanwhile do not make it skip or repeat one |
| LegacyGroups.MemberCursor.Erase | include/session/config/user_groups.h:159-168 | only on an open cursor standing on a member: removes exactly the member with the id last produced, even if others were added since; the last id is kept, so Next continues with the member that followed it |
| LegacyGroups.MemberCursor.Close | include/session/config/user_groups.h:157 | only on an open cursor: afterwards it is closed, so Next and Erase refuse it, and the group counts one open cursor fewer |
| LegacyGroups.AddDuringWalk | include/session/config/user_groups.h:159-174 | a member added during a walk, even one that sorts before the current member, does not move the cursor: erasing then removes the member produced, and the added one stays |
| LegacyGroups.NextAfterKept | include/session/config/user_groups.h:159-168 | after the loop has dealt with the first k+1 members, the next member produced is member k+2 of the original table |
| LegacyGroups.EraseMembersWhere | include/session/config/user_groups.h:159-168 | the erase-while-iterating loop leaves exactly the members whose ids were not chosen, in their original order |
| LegacyGroups.MembersWithoutKeeps | include/session/config/user_groups.h:159-168 | a member survives the loop iff it was there and was not chosen |
| LegacyGroups.EraseEveryOtherLeavesHalf | include/session/config/user_groups.h:159-168 | erasing every second member during one walk leaves half the members, rounded up |
| UserGroups.OwnKeyIsLookupKey | include/session/config/user_groups.h:43-47 | a stored community is found again by its own base URL and room |
| UserGroups.NewCommunity | include/session/config/user_groups.h:77-83 | a new community has the URL normalised and the room exactly as given, and is filed under the lookup key of the query |
| UserGroups.UserGroups.GetCommunity | include/session/config/user_groups.h:65-75 | found iff the normalised URL and the lower-cased room are a key of the table; the record found has that URL and a room equal to the query up to case |
| UserGroups.LookupIgnoresRoomCase | include/session/config/user_groups.h:65-68 | two room tokens that differ only in case find the same community |
| UserGroups.GetCommunityFindsStored | include/session/config/user_groups.h:65-75 | every stored community is found by its base URL and any case variant of its room, keeping its stored case |
| UserGroups.UserGroups.GetOrConstructCommunity | include/session/config/user_groups.h:77-92 | returns the stored record, with its own room case, when there is one; otherwise a new record with the URL normalised and the room as given |
| UserGroups.UserGroups.SetCommunity | include/session/config/user_groups.h:122-123 | the community table afterwards is the old one with the record stored under the lookup key of its base URL and room, its base URL normalised and its room case kept |
| UserGroups.SetKeyMatchesLookup | include/session/config/user_groups.h:43-47 | a community set as "https://Example.com:443/" with room "Room" is filed under the key a lookup of "https://example.com" with room "ROOM" searches for |
| UserGroups.SetThenGetCommunity | include/session/config/user_groups.h:65-75 | after setting such a community, the lookup with the other spelling finds it, with its base URL normalised and its room as set |
| UserGroups.UserGroups.EraseCommunity | include/session/config/user_groups.h:135-138 | reports true iff the community was present; afterwards its key is gone and nothing else changed |
| UserGroups.UserGroups.FindLegacyGroup | include/session/config/user_groups.h:94-96 | found iff the id is a key of the legacy-group table; the record found carries that id |
| UserGroups.UserGroups.GetLegacyGroup | include/session/config/user_groups.h:94-101 | null iff the group is absent; otherwise a fresh handle holding the stored record |
| UserGroups.UserGroups.LegacyGroupOrDefault | include/session/config/user_groups.h:103-108 | none iff the id is invalid; otherwise the stored record or a default record for that id |
| UserGroups.UserGroups.GetOrConstructLegacyGroup | include/session/config/user_groups.h:103-116 | null iff the id is invalid; otherwise a fresh handle on the stored or the default record |
| UserGroups.UserGroups.SetLegacyGroup | include/session/config/user_groups.h:125-133 | the legacy-group table afterwards is the old one with the handle's record stored under its id |
| UserGroups.UserGroups.EraseLegacyGroup | include/session/config/user_groups.h:135-139 | reports true iff the group was present; afterwards its id is gone and nothing else changed |
| UserGroups.UserGroups.SizeCommunities | include/session/config/user_groups.h:189-190 | the number of communities in the table and in a communities-only iteration |
| UserGroups.UserGroups.SizeLegacyGroups | include/session/config/user_groups.h:189-191 | the number of legacy groups in the table and in a legacy-groups-only iteration |
| UserGroups.UserGroups.Size | include/session/config/user_groups.h:187-188 | the community count plus the legacy-group count, which is the length of a whole-list iteration |
| UserGroups.UserGroups.NewIterator | include/session/config/user_groups.h:232-241 | a fresh iterator over conversations of the chosen kind, at the first one |
| UserGroups.ConvoIterator.Advance | include/session/config/user_groups.h:246-250 | moves to the next conversation; only allowed on an open iterator before the end |
| UserGroups.DoneIffNoCurrent | include/session/config/user_groups.h:246-258 | the iteration is done exactly when the current conversation is neither a community nor a legacy group |
| UserGroups.ConvoIterator.AsCommunity | include/session/config/user_groups.h:252-254 | present iff the current conversation is a community, and then it is the stored record; always present for a communities-only iteration before the end |
| UserGroups.ConvoIterator.AsLegacyGroup | include/session/config/user_groups.h:256-258 | present iff the current conversation is a legacy group, and then it is the stored record; always present for a legacy-groups-only iteration before the end |
| UserGroups.ConvoIterator.Erase | include/session/config/user_groups.h:260-261 | only on an open iterator: removes exactly the current conversation from its table; the one that followed becomes current |
| UserGroups.ConvoIterator.Close | include/session/config/user_groups.h:243-244 | only on an open iterator: afterwards it is closed, so Advance and Erase refuse it, and the list counts one open iterator fewer |
| UserGroups.EraseCommunitiesWhere | include/session/config/user_groups.h:210-227 | the erase-or-advance loop leaves exactly the communities not chosen, in order, and every legacy group |
| UserGroups.CommunitiesWithoutKeeps | include/session/config/user_groups.h:210-227 | a community survives the loop iff it was there and its key was not chosen |
| Namespaces.Value | include/session/config/namespaces.hpp:7-12 | UserProfile is 2, Contacts 3, ConvoInfoVolatile 4 and ClosedGroupInfo 11, each a signed 16-bit value |
| Namespaces.FromValue | include/session/config/namespaces.hpp:7-12 | a number maps back to the namespace stored under it, and to none iff no namespace has it |
| Namespaces.ValueInjective | include/session/config/namespaces.hpp:7-12 | distinct namespaces have distinct numbers |
| Namespaces.ValueRoundTrip | include/session/config/namespaces.hpp:7-12 | reading back a namespace's number gives the namespace |
| UserProfileConfig.NameOf | include/session/config/user_profile.hpp:41-42 | a name exactly when key "n" holds non-empty text, and then that text |
| UserProfileConfig.PicOf | include/session/config/user_profile.hpp:47-49 | a picture exactly when both "p" and "q" are set and non-empty, and then those two values |
| UserProfileConfig.UserProfile.GetName | include/session/config/user_profile.hpp:41-42 | the name stored under "n", or none exactly when "n" is unset, empty or not text |
| UserProfileConfig.UserProfile.GetProfilePic | include/session/config/user_profile.hpp:47-49 | the picture stored under "p" and "q", or none for both exactly when either is unset, empty or of the wrong kind |
| UserProfileConfig.WithName | include/session/config/user_profile.hpp:44-45 | reading the name back gives the name, or nothing for an empty name; only key "n" changes, so the picture is unaffected |
| UserProfileConfig.WithPic | include/session/config/user_profile.hpp:51-53 | reading the picture back gives (url, key), or nothing when either is empty, and then both keys are cleared; only "p" and "q" change, so the name is unaffected |
| UserProfileConfig.WithNameTwice | include/session/config/user_profile.hpp:44-45 | setting the name twice keeps only the second |
| UserProfileConfig.NameAndPicCommute | include/session/config/user_profile.hpp:12-16 | setting the name and setting the picture touch disjoint keys and commute |
| UserProfileConfig.UserProfile.constructor | include/session/config/user_profile.hpp:24-35 | a blank profile from a 32-byte seed or a 64-byte key, keeping the 32-byte seed |
| UserProfileConfig.NewUserProfile | include/session/config/user_profile.hpp:28-35 | a profile is created iff the secret key is 32 or 64 bytes long |
| UserProfileConfig.UserProfile.StorageNamespace | include/session/config/user_profile.hpp:37 | always the UserProfile namespace, number 2 |
| UserProfileConfig.UserProfile.EncryptionDomain | include/session/config/user_profile.hpp:39 | always "UserProfile" |
| UserProfileConfig.UserProfile.SetName | include/session/config/user_profile.hpp:44-45 | the name reads back as given, or as none for an empty name; the picture is unchanged |
| UserProfileConfig.UserProfile.SetProfilePic | include/session/config/user_profile.hpp:51-53 | the picture reads back as (url, key), or as none when either is empty; the name is unchanged |
| UserProfileConfig.UserProfile.SetProfilePicFrom | include/session/config/user_profile.hpp:54 | the same as setting the pair's URL and key |

## Left out

- Loading from a dump and creating from a secret key (`user_groups_init`, the `dumped` argument of the profile constructor) are left out. Both go through the serialisation engine in `base.h`/`config.hpp`, which is not part of this model. Empty objects are built directly instead.
- Encryption, key derivation, push, merge and the swarm protocol are left out for the same reason. The encryption domain appears here only as a string.
- The free functions manage C memory. For the two iterators (`ugroups_legacy_members_free`, `user_groups_iterator_free`), only their effect of ending an iteration is modelled, as `Close`. Freeing a group handle (`ugroups_legacy_group_free`) has no modelled effect.
- `user_groups_set_free_legacy_group` differs from `SetLegacyGroup` only in freeing memory, so it is modelled by `SetLegacyGroup`.
- The fixed C buffers and their null terminators are modelled as length bounds: a name of at most 100 characters, a room of at most 64 and a base URL of at most 267. The C buffers count UTF-8 bytes, so the bounds agree with them only for ASCII text; multi-byte characters are not modelled.
- `CONVO_NOTIFY_MODE` and the session-id validator come from `notify.h` and `util.h`, which are not part of this model.
  - The notify mode is an opaque code. The default given to new records is one fixed value.
  - A valid session id is exactly 66 hex digits.
- The raw pointers the getters return are modelled as copies of the record, or as fresh handles for legacy groups. Aliasing between the caller's struct and the stored record is not modelled.
- UserGroups.ConvoIterator.Erase: the iterator stands on a position in the conversation list, not on a record. `SetCommunity` appends a new community before the legacy groups, so setting a community during a whole-list walk that has reached the legacy groups shifts them by one, and `Erase` and `AsLegacyGroup` then act on the conversation now at that position. The header does not say what an iteration visits after such a change, and the model does not keep an iterator on its record across it. Erasing by key (`EraseCommunity`, `EraseLegacyGroup`) is modelled as forbidden while an iterator is open.
- LegacyGroups.LegacyGroup.Remove: requires that no member cursor is open over the group. The header only forbids removing the member the cursor currently stands on, so this precondition is stronger than the header's rule.
- The order of a whole-list iteration is a modelling choice. The header does not fix it: here, communities come before legacy groups, each in insertion order.
- The member order is also a modelling choice: ascending byte order of session id. The header promises only that iteration visits every member once.
- The caller's "should remove" test in the two erase-while-iterating loops is modelled as a set of chosen ids or keys.
- UserGroups.UserGroups.GetOrConstructCommunity: the header's boolean result does not say when construction fails. The model fails only when a new record would not fit the C buffers. Validation of malformed URLs and URL parsing beyond the scheme, the host, the default port and trailing slashes are not modelled.
- UserGroups.UserGroups.SetCommunity: requires the normalised base URL, the room and the public key to fit the C buffers. The header does not say what happens to a record that does not fit.
- Text.StripDefaultPort: the port is taken to be what follows a ':' that comes after the host's last ']' (an IPv6 literal) and last '@' (user information). Other authority syntax, such as a bracketed literal that is not closed, is not validated.
- Text.NormalizeUrl: only `http://` and `https://` are recognised as schemes. A URL without one is only lower-cased and has its trailing slashes stripped; its port is left in place. The header promises lower case, no default port and no trailing '/', and says nothing about URLs without a scheme.
- A lookup by host alone does not find a community stored with a scheme: "example.com" and "https://example.com" are different base URLs. The header keeps the scheme in the normalised URL, and a default port only has a meaning relative to a scheme.
- The header's "lower-case" is ASCII lower-casing. Unicode case folding is not modelled.
