# CWTeams team generation, modelled in Dafny

CWTeams splits a roster of rated players into a given number of teams. Every
team's weighted strength must lie within `MaxDev` of the needed team average.
No team may hold both players of a separation restriction (`a:b`). The program
shuffles the assignment over and over and keeps the valid team sets it has not
seen before. It recognises repeats by a 64-bit fingerprint that ignores the
order of players inside a team and the order of the teams. The kept team sets
are listed from the least to the most balanced.

The repository holds two implementations side by side. `PlayerRestrictor.cpp`,
`RatingsReader.cpp` and `CWPlayer.cpp` are the Java versions, and the body of
`Weights.cpp` is Java as well. Where the two versions differ on the modelled
path, both are modelled (`IsValidTeam` / `IsValidTeamJava`, `Restrict` /
`RestrictJava`, `ParseNames` / `ParseNamesJava`) and the differences are proved
or exhibited.

Modules (one per file):

- `Wrappers` (`wrappers.dfy`): `Option` and `Result`. A fatal path of the program becomes a `Failure`.
- `CaseFold` (`case_fold.dfy`): `IEquals` and Java's `equalsIgnoreCase`, which are proved to accept the same pairs.
- `Player` (`player.dfy`): `CWPlayer`, `WeightsData`, the overall scores, the player ordering and the `Team` view.
- `Names` (`names.dfy`): splitting a raw player name at its first space.
- `Restrictions` (`restrictions.dfy`): `BinaryPlayerRestriction`, `IsValidTeam`, `ContainsUsername` and the directive parser `Restrict`.
- `Sorting` (`sorting.dfy`): the ascending and descending orders `std::sort` produces, as functions.
- `Assignment` (`assignment.dfy`): how an assignment and its team sizes form teams, which teams the range-for visits, team strengths, the min/max fold behind the delta, and the validity verdict.
- `TeamHashing` (`team_hash.dfy`): the `GetTeamsHash` fingerprint with uint64 wrap-around, and its invariances.
- `WeightsTable` (`weights.dfy`): the situation signature, the rounded-mean fallback, and the class `Weights` with `Select` and `Load`.
- `GenerateTeams` (`generate_teams.dfy`): the classes `GenData`, `ConstTeamIterator` and `SearchState`, plus the per-team loops, `AreTeamsValid`, `GetTeamsHash`, `PrintResults` and `Gen`.

The statics `s_TeamValueFailedCount`, `s_PlayerRestrictionsFailedCount` and
`s_TeamResults` are the fields of `SearchState`.

The search runs until the output quota is met or a timeout fires. Its
contract, `GenerateTeams.Gen`, states the following:

- The team sizes are the round-robin partition. The weights are the exact situation's profile, else the rounded-mean fallback's. A `ConfigError` happens exactly when both keys are missing from the table.
- The band is fixed by the parameters: the needed team average is the roster's total overall divided by the team count, and the deviation is `MaxDev`.
- The kept assignments, with their fingerprints and the hash set, satisfy `Deduplicated`. `GenerateTeams.DeduplicatedMeans` reads this as: every kept assignment is a permutation of the roster that passes that band and every restriction, no two share a fingerprint, and the set holds one fingerprint per kept assignment.
- A search that reaches its quota keeps exactly `LimitOutput` assignments (none when it is not positive). A stale stop keeps fewer and comes after a repeated assignment. The inner timeout comes after a refused shuffle. The model's own `OutOfShuffles` exit comes only once the whole shuffle budget is spent.
- The shuffle counter equals the two failure counters plus the kept and the repeated draws, and there is no repeat unless some assignment was kept.
- The stored results are the earlier stored results plus, when sorting is on, the kept assignments. After printing they are ordered by descending delta.

A separate lemma, `TeamHashing.DistinctHashesDistinctPartitions`, shows that distinct fingerprints always mean distinct partitions of the players into teams.

The code behaves as follows where one might expect otherwise:

- The fallback situation is `floor(mean + 0.49999)`, so a mean ending in .5 rounds down (`RoundedMeanHalfRoundsDown`), not up.
- The restriction constructor compares names case-sensitively, so `Troy:troy` is accepted (`CaseVariantsAreDistinctPlayers`).
- `TeamCount` may exceed the roster size. The range-for then stops at the first team that starts at the roster's end, so trailing empty teams are never checked (`VisitedCount`).
- `GetTeamsDeltaStrength` uses 0.0 as "no bound yet", so a team of strength exactly 0.0 re-arms the sentinel. Strengths 5.0, 0.0, 3.0 give a delta of 2.0, not 5.0 (`ZeroStrengthResetsSentinel`).
- The C++ `Restrict` never adds a restriction (Findings).

## Model

| member | source | states |
|---|---|---|
| CaseFold.ToUpper | src/Main.h:33 | maps a lower-case ASCII letter to its upper-case partner (32 code points lower) and leaves every other character alone |
| CaseFold.ToLower | src/Main.h:33 | maps an upper-case ASCII letter to its lower-case partner and leaves every other character alone |
| CaseFold.Fold | src/Main.h:33 | `tolower(toupper(c))` gives a lower-case letter equal to or 32 above a letter, and fixes every non-letter |
| CaseFold.IEquals | src/Main.h:28-39 | true exactly when the strings have equal length and agree at every position after case folding; strings of different length are never equal |
| CaseFold.EqualsIgnoreCaseIsIEquals | src/PlayerRestrictor.cpp:12 | Java's `equalsIgnoreCase` accepts exactly the pairs the C++ `IEquals` accepts |
| CaseFold.FoldCharRule | src/PlayerRestrictor.cpp:12 | Java's per-character case-insensitive test holds exactly when both characters fold to the same one |
| CaseFold.SameIgnoringCaseReflexive | src/Main.h:28-39 | every username matches itself |
| CaseFold.SameIgnoringCaseSymmetric | src/Main.h:28-39 | matching does not depend on argument order |
| CaseFold.SameIgnoringCaseTransitive | src/Main.h:28-39 | matching is transitive, so together with the two above it is an equivalence |
| CaseFold.TroyMatchesMixedCase | src/Main.h:28-39 | "Troy" matches "tROY" but not "Troy " (length differs) |
| CaseFold.NonLetterDifferenceMatters | src/Main.h:33 | a difference at a position where a non-letter is involved always makes the strings unequal |
| Names.Find | src/RatingsReader.h:66 | `find` returns the first position of the character, or nothing exactly when it does not occur |
| Names.IndexOf | src/RatingsReader.cpp:107 | `indexOf` returns -1 exactly when the character is absent, else its first position |
| Names.ParseNames | src/RatingsReader.h:64-72 | fails exactly when the name has no space; otherwise first + " " + second is the raw name and the first part holds no space |
| Names.ParseNamesJava | src/RatingsReader.cpp:105-113 | the same split and the same failure condition in the Java port |
| Names.ParseNamesOfJoin | src/RatingsReader.h:64-72 | joining a space-free first name and any second name with a space and parsing gives back the two names |
| Names.FindAfterFreePrefix | src/RatingsReader.h:66 | the character found is the one after a prefix that does not contain it |
| Names.PortsAgree | src/RatingsReader.cpp:105-113 | the C++ and Java parsers give the same result on every input |
| Names.ParseUnique | src/RatingsReader.h:71 | a raw name has only one split whose first part is space-free |
| Names.LeadingSpaceGivesEmptyFirst | src/RatingsReader.h:71 | a name that starts with a space parses to an empty first name |
| Player.OverallWithinScores | src/CWPlayer.h:26-29 | under a weights profile (non-negative, summing to 1) the overall lies between the player's lowest and highest score |
| Player.OverallNonNegative | src/CWPlayer.h:26-29 | non-negative scores and weights give a non-negative overall |
| Player.OverallMonotone | src/CWPlayer.cpp:22-25 | `getOverall` (the same weighted sum, `GetOverall`) never rates a player lower than one they match or beat in every category, under non-negative weights |
| Player.GetUnWeightedOverall | src/CWPlayer.h:31-34 | the unweighted overall is the weighted overall with all three weights 1/3 |
| Player.CompareTo | src/CWPlayer.cpp:32-36 | `Double.compare` returns -1, 0 or 1 |
| Player.CompareToAgreesWithLess | src/CWPlayer.cpp:32-36 | the Java `compareTo` is negative exactly when the C++ `operator<` holds, positive exactly when it holds the other way, and antisymmetric |
| Player.LessIgnoresNames | src/CWPlayer.h:36-39 | the player order does not depend on real names or usernames |
| Player.LessIsStrictWeakOrder | src/CWPlayer.h:36-39 | `operator<` (`Less`) is irreflexive and transitive, and players it cannot tell apart form equivalence classes, so it is a valid sort order |
| Player.Members | src/CWPlayer.h:47-56 | the `Team` view holds `TeamSize` ids, the i-th being entry `PlayerIndex + i` of the assignment |
| Restrictions.NewBinaryPlayerRestriction | src/PlayerRestrictor.h:31-37 | construction fails exactly when the two names are equal, and otherwise keeps both names |
| Restrictions.CaseVariantsAreDistinctPlayers | src/PlayerRestrictor.h:33 | "Troy" and "troy" are accepted as a pair although `IEquals` matches them to the same player |
| Restrictions.TwoMatchesIff | src/PlayerRestrictor.h:39-58 | a team fails a restriction exactly when two different members match one of its names |
| Restrictions.SecondMatch | src/PlayerRestrictor.h:49-52 | a failing team has two positions i < j whose players both match |
| Restrictions.TwoMatchesFail | src/PlayerRestrictor.h:49-52 | two matching members make the team fail |
| Restrictions.OneMatchIff | src/PlayerRestrictor.h:45 | at least one match is counted exactly when some member's username matches a or b |
| Restrictions.MatchCountPrefix | src/PlayerRestrictor.h:42-55 | the matches seen so far never exceed the matches in the whole team |
| Restrictions.IsValidTeam | src/PlayerRestrictor.h:39-58 | returns true exactly when at most one member of the team matches the restriction's names |
| Restrictions.IsValidTeamJava | src/PlayerRestrictor.cpp:79-98 | the same verdict over the slice `teams[playerIndex .. playerIndex + teamSize)` |
| Restrictions.ContainsUsername | src/PlayerRestrictor.h:70-80 | true exactly when some player's username equals the name ignoring case |
| Restrictions.ContainsUsernameJava | src/PlayerRestrictor.cpp:8-18 | the same answer in the Java port |
| Restrictions.SplitDirective | src/PlayerRestrictor.h:87-97 | fails with a missing-colon error exactly when there is no colon; on success the halves are colon-free and rejoin with ':' to the argument; a second colon is an error |
| Restrictions.SplitDirectiveOfJoin | src/PlayerRestrictor.h:87-97 | splitting `a:b` gives back `a` and `b` when both are colon-free, and reports multiple colons when `b` has one |
| Restrictions.RestrictAsWritten | src/PlayerRestrictor.h:83-112 | when every directive is accepted, the result list is left exactly as it was |
| Restrictions.RestrictAsWrittenSucceeds | src/PlayerRestrictor.h:83-112 | the C++ `Restrict` succeeds exactly when every directive passes the colon and roster checks |
| Restrictions.CheckFailsAt | src/PlayerRestrictor.h:88-106 | one rejected directive makes the whole call fatal |
| Restrictions.WrittenFailureAt | src/PlayerRestrictor.h:88-106 | a fatal call names a directive that failed its checks |
| Restrictions.Restrict | src/PlayerRestrictor.h:83-112 | the loop returns exactly the result of the C++ parser as written |
| Restrictions.RestrictIntended | src/PlayerRestrictor.cpp:21-54 | a successful parse yields one restriction per directive |
| Restrictions.RestrictIntendedContents | src/PlayerRestrictor.cpp:26-51 | the i-th restriction's names rejoin with ':' to the i-th directive, differ, and both name players on the roster |
| Restrictions.RestrictIntendedAt | src/PlayerRestrictor.cpp:26-51 | the i-th restriction is the one the i-th directive builds on its own |
| Restrictions.RestrictIntendedStep | src/PlayerRestrictor.cpp:26-51 | the Java loop builds the directive's restriction and then handles the remaining directives |
| Restrictions.DirectiveRestrictionContents | src/PlayerRestrictor.cpp:28-50 | an accepted directive yields distinct names that rejoin to it and are both on the roster |
| Restrictions.DirectiveRefused | src/PlayerRestrictor.cpp:28-50 | a directive is refused exactly when it fails a check or names the same player text twice |
| Restrictions.RestrictIntendedFails | src/PlayerRestrictor.cpp:21-54 | the Java parse fails exactly when some directive is refused |
| Restrictions.RefusedFails | src/PlayerRestrictor.cpp:26-51 | a refused directive anywhere makes the parse fail |
| Restrictions.FailureNamesRefused | src/PlayerRestrictor.cpp:26-51 | a failed parse has a refused directive |
| Restrictions.RestrictJava | src/PlayerRestrictor.cpp:21-54 | a null list gives no restrictions; otherwise the result is the intended parse |
| Restrictions.AcceptedDirectiveDropped | src/PlayerRestrictor.h:109 | every directive the checks accept is dropped by the C++ parser but kept by the Java one |
| Restrictions.RestrictDropsTroyChas | src/PlayerRestrictor.h:109 | `troy:chas` on a roster with both players gives no restriction in C++ and one in Java |
| Sorting.Insert | src/GenerateTeams.cpp:263 | inserting into a sorted list keeps it sorted and adds exactly that element |
| Sorting.Sort | src/GenerateTeams.cpp:263 | `std::sort` of ids or hashes is an ascending permutation of its input |
| Sorting.SortedUnique | src/GenerateTeams.cpp:271 | two ascending lists with the same elements are equal, so any correct sort gives this result |
| Sorting.SortDependsOnlyOnElements | src/GenerateTeams.cpp:271 | inputs with the same elements sort to the same list |
| Sorting.InsertDesc | src/GenerateTeams.cpp:179-189 | inserting into a list in descending key order keeps that order and adds exactly that element |
| Assignment.SumAppend | src/GenerateTeams.cpp:70-73 | the size total of two pieces is the sum of their totals |
| Assignment.SumIncrement | src/GenerateTeams.cpp:72 | giving one team another player raises the total by one |
| Assignment.OffsetStep | src/GenerateTeams.cpp:41-47 | team k+1 starts `Sizes[k]` players after team k |
| Assignment.OffsetMonotone | src/GenerateTeams.cpp:41-47 | later teams never start earlier |
| Assignment.OffsetBound | src/GenerateTeams.cpp:36-39 | every team ends within the players the sizes account for |
| Assignment.Split | src/GenerateTeams.cpp:100-103 | cutting the assignment by the sizes gives one run per team |
| Assignment.SplitPrefix | src/GenerateTeams.cpp:100-103 | the first v runs depend only on the first v sizes |
| Assignment.SplitIsMembers | src/GenerateTeams.cpp:100-103 | run k is exactly the `Team` view the iterator yields for team k |
| Assignment.SplitFlatten | src/GenerateTeams.cpp:100-103 | concatenating the runs gives back the first `Sum(sizes)` entries of the assignment |
| Assignment.VisitedCount | src/GenerateTeams.cpp:49-52 | the range-for visits at most as many teams as there are sizes |
| Assignment.VisitedShape | src/GenerateTeams.cpp:49-52 | the last visited team is non-empty and every team after it is empty |
| Assignment.VisitedCountEndsIteration | src/GenerateTeams.cpp:49-52 | the player index equals the roster size after the visited teams, and is below it before |
| Assignment.VisitedOffsetIsSum | src/GenerateTeams.cpp:49-52 | after the visited teams the player index has reached the roster size |
| Assignment.EarlierOffsetShort | src/GenerateTeams.cpp:49-52 | before that, the player index is below the roster size |
| Assignment.VisitStops | src/GenerateTeams.cpp:49-52 | `it != end()` fails exactly after the last visited team |
| GenerateTeams.NotEqualEndWhileVisiting | src/GenerateTeams.cpp:49-52 | `operator!=` (`ConstTeamIterator.NotEqual`) against `end()` holds for a cursor k steps from `begin()` exactly while k is below the number of visited teams, whatever its team position |
| Assignment.VisitStep | src/GenerateTeams.cpp:36-47 | dereferencing at team k yields visited team k, and `++` moves the index past it |
| Assignment.VisitedAllWhenNonEmpty | src/GenerateTeams.cpp:11-14 | when no team size is zero every team is visited |
| Assignment.VisitedTeams | src/GenerateTeams.cpp:11-14 | the teams the range-for yields, one per visited team |
| Assignment.VisitedTeamsFlatten | src/GenerateTeams.cpp:100-103 | the visited teams together hold exactly the assigned players in order |
| Assignment.RoundRobinBalanced | src/GenerateTeams.cpp:70-73 | round-robin sizes never grow along the teams and differ by at most one |
| Assignment.Identity | src/GenerateTeams.cpp:104-109 | the starting assignment maps position i to player i |
| Assignment.PermutationInRange | src/GenerateTeams.cpp:104-109 | a permutation of the roster has one entry per player, each a valid id |
| Assignment.StrengthAppend | src/GenerateTeams.cpp:198-207 | the strength of two groups together is the sum of their strengths |
| Assignment.StrengthRemove | src/GenerateTeams.cpp:198-207 | removing a member lowers the strength by that player's overall |
| Assignment.StrengthPermutation | src/GenerateTeams.cpp:198-207 | a team's strength does not depend on the order of its members |
| Assignment.StrengthOfIdentity | src/GenerateTeams.cpp:91-92 | the strength of ids 0..k-1 is the total overall of the first k players |
| Assignment.StrengthOfRoster | src/GenerateTeams.cpp:91-92 | any permutation of the roster has the roster's total overall as its strength |
| Assignment.StrengthsSum | src/GenerateTeams.cpp:198-207 | the team strengths add up to the strength of all their members together |
| Assignment.TeamStrengthsSumToTotal | src/GenerateTeams.cpp:91-96 | for a permutation whose sizes cover the roster, the team strengths add up to the roster's total overall, so the needed team average is their mean |
| Assignment.VisitedInRange | src/GenerateTeams.cpp:285 | every visited team holds only valid player ids |
| Assignment.MinMaxStep | src/GenerateTeams.cpp:216-223 | one loop step folds the next team strength into the running bounds, treating 0.0 as unset |
| Assignment.MinMaxFoldIsMinMax | src/GenerateTeams.cpp:211-225 | when no team strength is exactly 0.0, the sentinel fold gives the true minimum and maximum |
| Assignment.DeltaIsSpread | src/GenerateTeams.cpp:209-226 | the delta is the strongest minus the weakest team's strength, and is never negative |
| Assignment.DeltaOfOneTeam | src/GenerateTeams.cpp:209-226 | a single team has delta 0 |
| Assignment.ZeroStrengthResetsSentinel | src/GenerateTeams.cpp:216-223 | a team of strength exactly 0.0 resets the minimum: strengths 5.0, 0.0, 3.0 span 5.0 but give delta 2.0 |
| Assignment.FirstFailureNoneIff | src/GenerateTeams.cpp:283-306 | an assignment is valid exactly when every visited team is within the band and passes every restriction |
| Assignment.FirstFailureLocates | src/GenerateTeams.cpp:283-306 | a failure belongs to the first failing team: a value failure when its band check fails, a restriction failure when the band passes but a restriction does not |
| Assignment.FirstFailureFrom | src/GenerateTeams.cpp:285-303 | one iteration checks the band, then the restrictions, then moves on to the next team |
| TeamHashing.MemberFold | src/GenerateTeams.cpp:264-268 | the per-team hash is a uint64 value |
| TeamHashing.TeamsFold | src/GenerateTeams.cpp:273-277 | the final hash is a uint64 value |
| TeamHashing.MemberFoldStep | src/GenerateTeams.cpp:267 | the loop's update `61 * hash + id` modulo 2^64 agrees with the fold over one more id |
| TeamHashing.TeamsFoldStep | src/GenerateTeams.cpp:276 | the loop's update `31 * result + val` modulo 2^64 agrees with the fold over one more team hash |
| TeamHashing.TeamHashIgnoresOrder | src/GenerateTeams.cpp:263 | reordering a team's members does not change its hash |
| TeamHashing.TeamHashes | src/GenerateTeams.cpp:253-270 | one hash per team, entry k being the hash of team k |
| TeamHashing.Zeros | src/GenerateTeams.cpp:251 | the freshly sized `teamHashes` vector is all zeros |
| TeamHashing.HashSlotsDone | src/GenerateTeams.cpp:251-270 | a vector whose slots hold the hashes of all visited teams, then zeros, is exactly the list of team hashes followed by zeros for the teams never reached |
| TeamHashing.TeamHashesViaSets | src/GenerateTeams.cpp:253-270 | each team's hash depends only on which players it holds |
| TeamHashing.MapSeqPermutation | src/GenerateTeams.cpp:271 | hashing two lists of teams that hold the same teams gives the same hashes, up to order |
| TeamHashing.HashIgnoresTeamOrder | src/GenerateTeams.cpp:248-281 | two team lists made of the same teams, in any order and with members in any order, get the same fingerprint |
| TeamHashing.DistinctHashesDistinctPartitions | src/GenerateTeams.cpp:137 | assignments with different fingerprints split the players into different teams |
| WeightsTable.NatToString | src/Weights.cpp:14 | a team size prints as a non-empty run of decimal digits |
| WeightsTable.ParseNatToString | src/Weights.cpp:14 | reading the printed digits back gives the size |
| WeightsTable.Signature | src/Weights.cpp:11-20 | the situation key of a non-empty partition is non-empty |
| WeightsTable.SignatureRoundTrip | src/Weights.cpp:11-20 | the key `3v3v2` parses back to exactly the sizes it was built from |
| WeightsTable.SignatureInjective | src/Weights.cpp:11-22 | different partitions never look up the same situation |
| WeightsTable.SignatureEndsInDigit | src/Weights.cpp:11-20 | a situation key ends in a digit |
| WeightsTable.RoundedMeanOf | src/Weights.cpp:29 | the fallback size k satisfies k <= mean + 0.49999 < k + 1, which makes k `floor(mean + 0.49999)` |
| WeightsTable.RoundedMeanOfWholeMean | src/Weights.cpp:29 | a whole-number mean is its own fallback size |
| WeightsTable.RoundedMeanHalfRoundsDown | src/Weights.cpp:29 | a mean ending in .5 falls back to the size below it |
| WeightsTable.FallbackIsNotSignature | src/Weights.cpp:28-32 | the fallback key `Nv` never equals an exact situation key |
| WeightsTable.RowsFromAt | src/Weights.cpp:58 | the rows read are the consecutive present sheet rows from row 1 on |
| WeightsTable.RowsFromEnd | src/Weights.cpp:58 | reading stops at the first missing row |
| WeightsTable.PutAllKeys | src/Weights.cpp:71 | the table's situations are exactly the situations of the rows read |
| WeightsTable.LastRowWins | src/Weights.cpp:71 | a situation's weights come from its last row |
| WeightsTable.FirstBadRow | src/Weights.cpp:65-69 | finds the first row whose weights do not sum to exactly 1.0, or nothing when every row does |
| WeightsTable.RawSignature | src/Weights.cpp:12-19 | the key as the stream writes it: one character per size, whose code is the size, with `v` between neighbours, so 2n-1 characters for n sizes |
| WeightsTable.RawSignatureStart | src/Weights.cpp:14 | streaming a uint8 size writes the character with that code |
| WeightsTable.SignatureStart | src/Weights.cpp:11-20 | a key starts with the first digit of the first size |
| WeightsTable.RawSignatureMissesTable | src/Weights.cpp:14 | for a first team size below 48 the key the C++ builds differs from the decimal key |
| WeightsTable.Weights.Select | src/Weights.cpp:9-43 | the exact situation's weights when present; otherwise the rounded-mean fallback's; otherwise an error naming both keys (and an averaging error for no teams) |
| WeightsTable.Weights.Load | src/Weights.cpp:45-82 | the table becomes the rows read from row 1, a later row overwriting an earlier one; at the first row not summing to 1.0 the load fails, naming that row and its sum, with only the rows before it stored |
| GenerateTeams.GenData.constructor | src/GenerateTeams.cpp:66 | the generation data holds the roster and restrictions, with no teams, sizes or weights yet |
| GenerateTeams.ConstTeamIterator.constructor | src/GenerateTeams.cpp:13 | `begin()` starts at player 0 of team 0 |
| GenerateTeams.ConstTeamIterator.At | src/GenerateTeams.cpp:14 | `end()`'s cursor stores the given player and team positions |
| GenerateTeams.ConstTeamIterator.Advance | src/GenerateTeams.cpp:41-47 | past the last team it is fatal and moves nothing; otherwise it skips the current team's players and moves to the next team |
| GenerateTeams.ConstStepsReachOffsets | src/GenerateTeams.cpp:41-47 | after k steps from `begin()` the cursor is at team k, whose first player is at the sum of the first k sizes |
| GenerateTeams.MutableStepSkipsTeams | src/GenerateTeams.cpp:22-28 | with sizes [2, 3] the mutable `++` puts team 1 at player 3 instead of 2, and its next step reads past the sizes |
| GenerateTeams.MutableStep | src/GenerateTeams.cpp:22-28 | the mutable `operator++` as written: it steps only when a next team exists, moves to the same team position as the const step, and lands on the same player exactly when the current and the next team have equal sizes |
| GenerateTeams.MutableStepDiffers | src/GenerateTeams.cpp:22-28 | whenever the first two sizes differ, the mutable iterator misplaces team 1 |
| GenerateTeams.GetTeamStrength | src/GenerateTeams.cpp:198-207 | returns the sum of the weighted overalls of the team's members |
| GenerateTeams.TrackTeam | src/GenerateTeams.cpp:212-223 | one loop step widens the running bounds by the current team's strength and advances the cursor |
| GenerateTeams.GetTeamsDeltaStrength | src/GenerateTeams.cpp:209-226 | returns max minus min of the visited teams' strengths, computed with the 0.0 sentinel |
| GenerateTeams.HashTeam | src/GenerateTeams.cpp:255-268 | returns the fold of the team's sorted member ids |
| GenerateTeams.GetTeamsHash | src/GenerateTeams.cpp:248-281 | returns the fingerprint of the assignment: the fold of the sorted per-team hashes, with zeros for unvisited teams |
| GenerateTeams.HashVisitedTeams | src/GenerateTeams.cpp:251-270 | returns one slot per team: slot k holds the hash of visited team k, and the slots of teams never reached stay 0 |
| GenerateTeams.StoreTeamHash | src/GenerateTeams.cpp:253-270 | one iteration stores the current team's hash in its slot, advances the cursor, and reports whether it has reached `end()`, which happens exactly after the last visited team |
| GenerateTeams.FoldTeamHashes | src/GenerateTeams.cpp:271-277 | sorts the team hashes and folds them into the result |
| GenerateTeams.SearchState.constructor | src/GenerateTeams.cpp:55-57 | both failure counters start at zero and no results are stored |
| GenerateTeams.PassesRestrictions | src/GenerateTeams.cpp:295-302 | true exactly when the team passes every restriction |
| GenerateTeams.CheckTeam | src/GenerateTeams.cpp:287-302 | reports a value failure when the team is outside the band, else a restriction failure when one fails, else nothing |
| GenerateTeams.FindFailure | src/GenerateTeams.cpp:285-305 | returns the first failure over the visited teams, in iteration order |
| GenerateTeams.AreTeamsValid | src/GenerateTeams.cpp:283-306 | true exactly when the assignment has no failing team; otherwise it bumps exactly one counter, the one for the first failure |
| GenerateTeams.PartitionSizes | src/GenerateTeams.cpp:68-73 | one size per team, summing to the roster size, team k getting the round-robin share |
| GenerateTeams.DealPlayer | src/GenerateTeams.cpp:72 | handing out player i moves the sizes from the first i to the first i+1 round-robin deals |
| GenerateTeams.RoundsAt | src/GenerateTeams.cpp:70-73 | the sizes after dealing i players give team k its round-robin share |
| GenerateTeams.RoundsAtStart | src/GenerateTeams.cpp:68 | before any player is dealt all sizes are zero |
| GenerateTeams.RoundsAtStep | src/GenerateTeams.cpp:72 | player i goes to team `i % TeamCount` |
| GenerateTeams.RoundsStep | src/GenerateTeams.cpp:72 | one more player completes the round or extends it by one team |
| GenerateTeams.NextQuotient | src/GenerateTeams.cpp:72 | the team index `i % n` wraps to 0 after the last team and otherwise moves to the next team |
| GenerateTeams.NeededTeamAverage | src/GenerateTeams.cpp:91-96 | the needed team average is the roster's total overall divided by the team count |
| GenerateTeams.MeanTimesMeanSize | src/GenerateTeams.cpp:93-96 | the mean overall times the mean team size is the total divided by the team count |
| GenerateTeams.IdentityAssignment | src/GenerateTeams.cpp:104-109 | the starting assignment is the identity, a permutation of the roster |
| GenerateTeams.Shuffle | src/GenerateTeams.cpp:123 | a shuffle rearranges the assignment without adding or losing entries |
| GenerateTeams.ShuffleKeepsPermutation | src/GenerateTeams.cpp:123 | a shuffled permutation is still a permutation of the roster |
| GenerateTeams.SortByDelta | src/GenerateTeams.cpp:179-189 | the stored assignments reordered into descending delta, nothing added or lost |
| GenerateTeams.PrintResults | src/GenerateTeams.cpp:177-196 | the results are sorted by descending delta and printed numbered from the count down to 1 |
| GenerateTeams.DrawValid | src/GenerateTeams.cpp:123-135 | shuffles until an assignment passes, the clock fires or the budget is spent: every shuffle uses one unit of budget, and a return that is neither a success nor a timeout has spent it all; a timeout comes only after at least one refused shuffle; a success is a permutation passing every check, and each shuffle but a success adds one to a failure counter, which never go down |
| GenerateTeams.SetUp | src/GenerateTeams.cpp:61-109 | round-robin sizes, weights chosen by `Select` (an error exactly when both keys miss), the needed average, the deviation and the identity assignment |
| GenerateTeams.RecordUnseen | src/GenerateTeams.cpp:142 | inserting an unseen hash keeps the set matching the list of kept hashes |
| GenerateTeams.RecordedMeans | src/GenerateTeams.cpp:137-142 | the set of tried hashes holds exactly the kept hashes, with no repeats |
| GenerateTeams.AdmitsAdmitting | src/GenerateTeams.cpp:126-136 | a valid permutation together with its own fingerprint is always admissible |
| GenerateTeams.PairedMeans | src/GenerateTeams.cpp:137-151 | each kept assignment sits beside its hash |
| GenerateTeams.DeduplicatedMeans | src/GenerateTeams.cpp:121-163 | every kept assignment is a valid permutation whose fingerprint is in the tried set, no two kept assignments share a fingerprint, and the set's size is the number kept |
| GenerateTeams.SearchRound | src/GenerateTeams.cpp:123-137 | one round draws a valid assignment and hashes it; the round is `Unseen` with an admissible new hash or `Seen` with a hash already in the set; each shuffle uses one unit of budget, running out of shuffles means the budget is spent, and a clock-out follows a refused shuffle |
| GenerateTeams.KeepUnseen | src/GenerateTeams.cpp:137-151 | a new hash is inserted into the tried set, and the assignment is kept and stored when sorting |
| GenerateTeams.Search | src/GenerateTeams.cpp:121-163 | the loop ends with exactly `LimitOutput` kept assignments (none when it is not positive), on the stale break below the quota after a repeated assignment, on the inner timeout after a refused shuffle, or with the whole shuffle budget spent; the kept assignments are deduplicated and counted, and a repeat is only counted once something was kept |
| GenerateTeams.Run | src/GenerateTeams.cpp:121-166 | the search followed by `PrintResults`, which the last-resort budget skips; the same exits as `Search` (quota, stale break after a repeat, timeout after a refused shuffle, spent budget); a met quota means exactly `LimitOutput` kept assignments, and the printed results are the earlier ones plus the kept ones when sorting, by descending delta |
| GenerateTeams.Gen | src/GenerateTeams.cpp:59-175 | round-robin sizes; a `ConfigError` exactly when both situation keys miss; otherwise the selected weights, the needed average total / team count and the deviation `MaxDev`; the kept assignments are distinct-fingerprint permutations valid under that band, exactly `LimitOutput` of them when the quota is met; a stale stop follows a repeated assignment, a timeout a refused shuffle, and `OutOfShuffles` a spent budget; the shuffle count is the two failure counters plus the kept and the repeated draws, with no repeat before a kept assignment; the stored results are the earlier ones plus the kept ones when sorting, sorted by descending delta |

## Left out

- Randomness: `std::shuffle` with `s_RNG` is any permutation-preserving rearrangement. Which permutation is drawn is not modelled.
- Clock: the two `steady_clock` timeouts and `TimeoutSeconds` are nondeterministic choices, so the model does not say when a timeout fires.
- GenerateTeams.Gen: a shuffle budget ends the run with `OutOfShuffles` so that termination is provable. This outcome has no counterpart in the source, which keeps shuffling until the clock fires. It happens only once all `budget` shuffles have been made (`comboCount == budget`).
- GenerateTeams.Gen: the shuffle count is tied to the two failure counters, the kept assignments and the repeats, and a repeat needs an earlier kept assignment. The model keeps no trace of the individual draws, so the contract does not prove that each counted failure was a refused draw.
- GenerateTeams.Gen: requires between 1 and 256 players, and at most 255 for a single team. `TeamSet` holds uint8 ids and `TeamSizes` uint8 sizes: ids above 255 would wrap, and a lone team of 256 would get size 0, after which the iterator's `operator++` is fatal. The model does not capture that wrap-around. It also requires at least one team, because `i % Sizes.size()` is undefined for zero teams. With no players, the average is 0/0 in the source.
- GenerateTeams.Gen: the summary messages and their throughput arithmetic (lines 165-174) are logging and are left out.
- Output: `PrintTeam`, `fprintf` to `Output` and every `CW_INFO`/`CW_SUCCESS` line are left out. `PrintResults` returns the ordinals and assignments it would print.
- GenerateTeams.PrintResults: the source moves each stored assignment out of `s_TeamResults` while printing, leaving moved-from vectors behind; the model keeps them. The comparator also moves its arguments through `data.Teams`, which is not modelled. Ties in delta may come out in any order, as with `std::sort`.
- Floating point: `double` is modelled as `real`. Rounding in sums, in the average and in the exact `sum != 1.0` test of `Load` is not captured.
- CaseFold.IEquals: ASCII case folding only. `toupper`/`tolower` in other locales and Java's Unicode case folding are not modelled.
- Weights.Load: the spreadsheet is a sequence of optional rows (a missing row is `None`). Opening the workbook, `ExcelUtils` column lookup, cell type errors and the exception path are not modelled.
- Rating sheet reading (`RatingsReader` apart from `ParseNames`), the command line (`Main.cpp`) and logger setup are not part of this model.
- The mutable `TeamIterator` is modelled only through its `operator++` (`MutableStep`). Nothing in the modelled paths iterates a non-const `GenData`.
- `PlayerRestriction` is an extensible interface in the source. The model has its single variant, `BinaryPlayerRestriction`, as a datatype.
- The search is decomposed into helpers (`SetUp`, `Run`, `Search`, `SearchRound`, `DrawValid`, `KeepUnseen`), and so are `GetTeamsHash` (`HashVisitedTeams`, `StoreTeamHash`, `FoldTeamHashes`), `AreTeamsValid` (`FindFailure`, `CheckTeam`) and `GetTeamsDeltaStrength` (`TrackTeam`). Each helper carries the lines it models.

## Findings

| source | as written | input that shows it | evidently intended | confidence | as-written member | corrected member |
|---|---|---|---|---|---|---|
| src/Weights.cpp:14 | `ss << teamSizes[i]` streams a `uint8_t`, which writes the character with that code rather than its digits | sizes [4, 4] give the key "\x04v\x04" instead of "4v4", so the exact situation is never found | the decimal key, as the `(int)` cast at GenerateTeams.cpp:82 prints it | not executed; high | WeightsTable.RawSignatureMissesTable | WeightsTable.SignatureRoundTrip |
| src/PlayerRestrictor.h:109 | the line that adds the parsed restriction is commented out, so `Restrict` checks every directive and adds none | roster {troy, chas} and directive `troy:chas` leave the restriction list empty, so the two may share a team | one `BinaryPlayerRestriction` per accepted directive, as the Java `restrict` adds | not executed; high | Restrictions.RestrictDropsTroyChas | Restrictions.RestrictIntendedContents |
| src/GenerateTeams.cpp:22-28 | `TeamIterator::operator++` increments `TeamIndex` before adding `Sizes[TeamIndex]`, so it adds the next team's size | sizes [2, 3]: after one step team 1 starts at player 3, not 2, and the next step reads `Sizes[2]` past the end | add the current size, then move on, as `ConstTeamIterator::operator++` does | not executed; high (the mutable iterator is not used by the modelled paths) | GenerateTeams.MutableStepSkipsTeams | GenerateTeams.ConstStepsReachOffsets |
