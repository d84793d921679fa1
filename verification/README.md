# A verified model of the pod services

The repository runs bioregional pods: members witness each other into membership, vote on grants, pay in mutual
credit and carry credentials of authority. This project models the parts where most can go wrong and proves what
they are for. Money is whole cents, time is milliseconds.

- **Grants rounds** (`Allocation`, `Tally`, `BallotBox`, `Rounds`, with `Totals` and `Sorting`). The matching pool is
  split by a capping loop, proved to be one-shot water-filling. `Pod` holds the tables; its invariant says that the
  ballot box is the last accepted ballot of every voter and that a stored tally is the tally of what is stored, so
  the independent checker accepts every closed round.
- **Secret sharing** (`BinaryPolynomials`, `Gf256`, `Generator`, `FieldTables`, `Interpolation`, `SecretSharing`).
  The field is defined by polynomial remainders; the tables, Horner's rule and the interpolation loop refine it.
- **Mutual credit** (`Ledger`, `Payments`). `Gateway` rings up, authorizes, settles and records tender, one atomic
  step each.
- **Authority** (`AuthorityChain`, `Verifier`, `Pep`, `StatusList`, `SeedDistances`, `Tiers`). Passing authority on
  and checking it, the gate that rebuilds chains from digests, issuance with its log, the revocation bitstring, and
  distances from the seed set.
- **Admission** (`Admission`). Witnessed pairs, meetings and the two admissions each record is good for.
- **SQL scripts** (`SqlSplitter`). The splitter, the lexer that it refines, and one that takes both characters of a
  block comment's opening at once; where the two agree is proved.

Each handler of a service is one atomic step of a class whose fields are the tables: a refusal leaves them as they
were, as the transaction's roll-back does. Primary keys and unique indexes of the migrations are checked where rows
are inserted. Where another request may have written in between, what a request saw earlier is a parameter
(`seen`, `seenUsed` in `Admission`). Signature checks, the clock, random ids and random bytes are parameters.
Digests of ballots, requests and pairs are constructors, so that different contents have different digests; the
digest that links credentials is an arbitrary function, and nothing depends on its being injective. How
contributions are added, the square root, the tier weights and their rounding are arbitrary functions
(`Tally.Arithmetic`); relationship halves have an injective digest function. The clock of the issuance log does not
run backwards, so newest first is the reverse of insertion order.

Where the code and what is said of it disagree, the model follows the code:

- A semicolon inside a block comment is said never to split a script. `splitStatements` lets the asterisk that opens a
  comment also end it, so `/*/` is a whole comment, and a semicolon that follows in the comment is taken for a
  separator (`SqlSplitter.ShortCommentSplits`, `SqlSplitter.SemicolonInCommentSplits`); `SqlSplitter.TokensAgreeIff`
  and `SqlSplitter.PiecesAgree` say when that cannot happen.
- `settle` trusts its caller for the amount of a requested entry. `Ledger.SettlingKeepsBooksIff` says when that is
  harmless; `authorizePayment` always passes the entry's own amount.
- An invoice written like the number of another row can be hidden by that row: `findEntry` may return either, and a
  payment is then refused (`Payments.FoundIff`, `Payments.HiddenInvoice`). The same holds of tender.
- The gate looks at one membership grant and one acknowledgement. A complete and current pair is not recognised when
  an answered grant or a matching acknowledgement that has run out comes before it (`Verifier.RecognisedIffFirst`,
  `Verifier.RenewalOverlooked`).
- A meeting is made for one pair, but `witnessEdge` accepts it as an event, so it can get further records
  (`Admission.TwoRecordsAtOneMeeting`).
- With `downgradeAtExpiryOnly` false, a refresh revokes merchants' `pay:receive` rows too (`Pep.ReceivingSurvivesIff`).

## Model

| member | source | states |
|---|---|---|
| Gf256.ReduceIsRemainder | packages/credential-core/src/shamir.ts:3 | a polynomial and its reduction differ by a multiple of 0x11b, for polynomials of any degree |
| Gf256.RemainderIsUnique | packages/credential-core/src/shamir.ts:3 | the reduction is the only byte that differs from the polynomial by a multiple of 0x11b, so `Times` is multiplication modulo 0x11b (section 4.2 of FIPS 197) |
| Gf256.TimesCommutes | packages/credential-core/src/shamir.ts:19 | multiplication of bytes commutes |
| Gf256.TimesAssociates | packages/credential-core/src/shamir.ts:19 | multiplication of bytes is associative |
| Gf256.TimesAdd | packages/credential-core/src/shamir.ts:19 | multiplication distributes over exclusive or, on both sides |
| Generator.OrderOfThree | packages/credential-core/src/shamir.ts:3-15 | 3 generates: its 255th power is 1 and no smaller positive one is |
| Generator.PowerAdd | packages/credential-core/src/shamir.ts:19 | powers of 3 multiply by adding exponents |
| Generator.EveryByteIsAPower | packages/credential-core/src/shamir.ts:5-15 | every non-zero byte is a power of 3 below the 255th, so the logarithm table has no gap |
| FieldTables.Tables.constructor | packages/credential-core/src/shamir.ts:4-17 | the loop leaves the 510 powers of 3 in EXP and in LOG an exponent below 255 for every non-zero byte |
| FieldTables.Tables.Mul | packages/credential-core/src/shamir.ts:19 | adding logarithms gives the product modulo 0x11b for all bytes, zero included, and never indexes EXP beyond 509 |
| FieldTables.Tables.Div | packages/credential-core/src/shamir.ts:20-23 | refuses exactly division by zero; otherwise the quotient times the divisor is the dividend; EXP is never indexed beyond 509 |
| Interpolation.WeightsSumToOne | packages/credential-core/src/shamir.ts:60-69 | the interpolation weights at 0 of any distinct points add up to 1 |
| Interpolation.InterpolationAtZero | packages/credential-core/src/shamir.ts:58-71 | values of a polynomial at at least as many distinct points as it has coefficients combine to its constant coefficient |
| Interpolation.Fit | packages/credential-core/src/shamir.ts:26-28 | a polynomial with as many coefficients as points takes any prescribed values there |
| SecretSharing.Horner | packages/credential-core/src/shamir.ts:42-43 | the Horner loop computes the value of the polynomial |
| SecretSharing.SplitSecret | packages/credential-core/src/shamir.ts:29-48 | refuses exactly a threshold below 2, a share count outside threshold..255 or an empty secret, each with its own error, for any threshold; otherwise share i is i+1 and then one polynomial value for each byte, its constant coefficient the byte |
| SecretSharing.CombineShares | packages/credential-core/src/shamir.ts:51-73 | refuses fewer than two shares, unequal or too short shares, and zero or repeated indices, in that order; otherwise computes the interpolation at 0 of every column |
| SecretSharing.RoundTrip | packages/credential-core/src/shamir.ts:25-73 | any threshold or more distinct shares, in any order, for every random choice, are accepted and combine to the secret |
| SecretSharing.FewerSharesFitAnySecret | packages/credential-core/src/shamir.ts:26-28 | fewer shares than the threshold are also the shares of every other secret of the same length |
| Allocation.Allocate | services/round/src/tally.ts:116-151 | the capping loop ends in the outcome that `Waterfill` describes in one go: at one final rate a proposal is capped exactly when its share exceeds the cap, the others get their floor, and the remainder goes by weight and id to whoever has room |
| Allocation.RateNeverFalls | services/round/src/tally.ts:120-133 | a pass that caps somebody leaves money over and raises the rate paid to the rest |
| Allocation.CapPass | services/round/src/tally.ts:125-133 | whoever was capped earlier still exceeds the cap at the new, higher rate |
| Allocation.CappedSetUnique | services/round/src/tally.ts:124-133 | for given weights, pool and cap only one set of proposals can be the capped one |
| Allocation.WaterfillUnique | services/round/src/tally.ts:116-151 | the outcome is unique: neither the order of the ids nor that of the passes matters |
| Allocation.SharesWithinBounds | services/round/src/tally.ts:116-151 | every share is between 0 and the cap, and a proposal without weight gets nothing |
| Allocation.CentsConserved | services/round/src/tally.ts:116-151 | the cents given and the cents unallocated are together the pool |
| Allocation.UnallocatedExactly | services/round/src/tally.ts:150 | unallocated is the pool without participants, 0 without a cap, and otherwise what the pool exceeds participants times cap by |
| Allocation.ExactShares | services/round/src/tally.ts:116-151 | the shares worked out from weights, pool and cap: whoever is capped has the cap and would get more at the final rate, nobody else would, and everybody else gets the exact share, less than a cent short and over it by at most the fractions of cents that the others lack |
| Allocation.EqualWeightsGoById | services/round/src/tally.ts:138-147 | of two proposals with equal weight the one with the earlier id never gets less |
| Allocation.LargerWeightGetsNoLess | services/round/src/tally.ts:116-151 | a strictly larger weight never gets fewer cents |
| Allocation.PlaceRemainder | services/round/src/tally.ts:140-147 | the remainder is handed out in queue order: nobody gets a cent of it while somebody ahead has room under the cap, and no cent is lost |
| Tally.HashIdentifiesBallots | services/round/src/tally.ts:106-113 | two ballot lists have the same hash exactly when one is a rearrangement of the other |
| Tally.VoiceCost | services/round/src/tally.ts:89-93 | the loop computes the sum of the squared votes |
| Tally.VotesCostTheirSquare | services/round/src/tally.ts:89-93 | no votes cost nothing, and n votes for one more proposal cost n times n more, whatever else is voted for |
| Tally.SumsAreTotals | services/round/src/tally.ts:170-182 | the votes counted for a proposal are the total of what the ballots give it, and its voters are those who give it any |
| Tally.CountBallot | services/round/src/tally.ts:171-181 | refuses exactly a ballot that names an unknown proposal or has a negative count, with a true reason; otherwise each proposal of the ballot is counted once and no other changes |
| Tally.CountBallots | services/round/src/tally.ts:170-182 | the nested loops give every proposal the sums that its own votes give in ballot order |
| Tally.ComputeTally | services/round/src/tally.ts:158-225 | succeeds exactly when ballots and adjustments name known proposals and no count is negative; the result is the tally: water-filled shares of the weights plus the adjustments, in id order, with the hash, the total and what is unallocated |
| Tally.TallyIgnoresOrder | services/round/src/tally.ts:106-113 | tallies of rearranged ballots are equal in every field, which is what lets an outsider reproduce them although adding contributions is not assumed associative |
| Tally.EntriesCoverProposals | services/round/src/tally.ts:197-211 | each proposal has exactly its own entry, in id order, whose matching is its cents plus its adjustments |
| Tally.EntriesCount | services/round/src/tally.ts:170-211 | an entry's votes, voters and voice are the sums that the ballots give, its weight is that of its voice and its share the part of all weights |
| Tally.UnadjustedTallyIsSound | services/round/src/tally.ts:184-211 | without adjustments every matching is non-negative and the total is within the pool |
| Tally.AdjustmentIsLocal | services/round/src/tally.ts:188-194 | one more adjustment changes the matching of its own proposal and the total by its amount, and nothing else |
| BallotBox.VoterHashIdentifies | services/round/src/rounds.ts:150-153 | within a round the hash of round and principal, concatenated without separator, identifies the principal; hashes of two rounds are equal exactly when the concatenations are |
| BallotBox.KeyTakenIff | services/round/src/rounds.ts:400-407 | a key counts as in use exactly when somebody else has a ballot of the round with it |
| BallotBox.BoxAfterBallot | services/round/src/rounds.ts:400-419 | replacing a voter's ballot keeps voter records and ballots in bijection and voting keys distinct, given only the check for keys in use |
| BallotBox.RemembersAfterBallot | services/round/src/rounds.ts:408-419 | what is stored for each voter is the last ballot accepted from that voter |
| BallotBox.BoxIsLastBallots | services/round/src/rounds.ts:302-306 | the ballots that are tallied are exactly the last ones accepted, and no ballot stands for two voters |
| BallotBox.GroupVotesOnce | services/round/src/rounds.ts:356-419 | a group has one vote: no two ballots of a round are cast in the name of one group, whichever of its members cast them |
| Rounds.Pod.CountedFairly | services/round/src/rounds.ts:356-399 | in every reachable state the ballots that are counted are of the tier to vote in their round, and no group has two of them |
| BallotBox.BoxFits | services/round/src/rounds.ts:468-476 | a sound ballot box can always be tallied |
| Rounds.Pod.constructor | services/round/src/rounds.ts:1-5 | an empty pod satisfies the invariant |
| Rounds.Pod.CreateRound | services/round/src/rounds.ts:166-185 | a round is created in draft exactly with an unused id, a pool of at most 10^14 cents, an opening before the closing, tiers of at least T1, a voice budget from 1 to 1000000 and a positive cap; without them the tiers are T2 and the budget 100; the invariant is kept |
| Rounds.Pod.OpenRound | services/round/src/rounds.ts:187-192 | exactly a draft round can be opened, and only its status changes |
| Rounds.Pod.CreateProposal | services/round/src/rounds.ts:222-258 | a proposal is taken exactly in an open round, or a draft one from a steward, at a sufficient tier and with a positive budget; the proposer is the lead |
| Rounds.Pod.CheckBallot | services/round/src/rounds.ts:319-356 | passes exactly a ballot whose session may vote, in an open round and window, made and signed for the round, naming its proposals and within budget; a refusal gives a true reason |
| Rounds.Pod.SubmitBallot | services/round/src/rounds.ts:312-434 | stores exactly the admissible ballot in place of the voter's earlier one and records it as the last; refuses a key that somebody else used; the unique index on keys is never violated; a refusal changes nothing; the invariant is kept |
| Rounds.Pod.PublishedBallots | services/round/src/rounds.ts:437-453 | the ballots of the round, and every one comes with a voting key no later than the next |
| Rounds.Pod.TallyRound | services/round/src/rounds.ts:468-476 | the tally of what is stored; in a valid pod it cannot fail for adjustments of the round |
| Rounds.Pod.CloseRound | services/round/src/rounds.ts:484-490 | exactly an open round can be closed, and closing it never fails: the tally of the stored ballots is stored |
| Rounds.AdjustmentMoves | services/round/src/rounds.ts:513-521 | after an adjustment only its own matching and the total need checking for the whole tally to stay within the pool |
| Rounds.Pod.AddAdjustment | services/round/src/rounds.ts:493-530 | an adjustment is taken exactly when the matching before it plus the amount is non-negative and the total plus the amount is within the pool; it is logged, and both figures move by the amount |
| Rounds.Pod.PublishRound | services/round/src/rounds.ts:538-560 | exactly a tallied round can be published: a missing or stale tally cannot occur; each proposal of the round gets the entry of the tally that bears its id and is funded exactly when its matching is positive, and no other changes |
| Rounds.CheckBallots | services/round/src/rounds.ts:591-602 | no problem is found exactly when keys are distinct and every ballot is for the round, signed and within budget |
| Rounds.VerifyTally | services/round/src/rounds.ts:583-615 | no problem is reported exactly when ballots pass and the stored tally is the tally of them; so it accepts nothing else |
| Rounds.VerifyAgainst | services/round/src/rounds.ts:617-637 | no problem is reported exactly when, besides, pool, cap and adjustment log are those of the round |
| Rounds.Pod.VerifyRound | services/round/src/rounds.ts:617-637 | in every reachable state a closed or published round passes the independent check without a problem |
| Rounds.SoundRoundChecks | services/round/src/rounds.ts:583-637 | the invariant implies everything the checker looks at |
| SeedDistances.SeedDistances | services/trust-index/src/scorer.ts:26-46 | terminates on every link graph; exactly the reachable people have a distance, and it is the length of a shortest chain from some seed; link by link: seeds and nobody else at 0, whoever is endorsed at most one further, and everybody else endorsed by somebody one nearer |
| SeedDistances.NoShorterChain | services/trust-index/src/scorer.ts:35-44 | once the queue is exhausted no chain of endorsements reaches anybody sooner than recorded |
| SqlSplitter.SplitStatements | packages/db/src/splitStatements.ts:17-105 | the six-mode loop yields, on every string, exactly the statements of a lexer that tracks quotes, comments and dollar bodies as the program does; they are the statements of the lexer whose block comments open with two characters whenever no short comment `/*/` with more text behind it stands outside another region |
| SqlSplitter.TokensAgreeIff | packages/db/src/splitStatements.ts:30-72 | at a place in a text both lexers read equally far if and only if the text there does not start with `/*/` followed by more |
| SqlSplitter.PiecesAgree | packages/db/src/splitStatements.ts:30-97 | both lexers cut a script at the same places when no top-level position starts that way |
| SqlSplitter.TopLevelsAgree | packages/db/src/splitStatements.ts:30-97 | for such a script the same positions are top-level semicolons to both |
| SqlSplitter.ShortCommentSplits | packages/db/src/splitStatements.ts:57-72 | where the first such place of a script reads `/*/;*/`, the program cuts at the semicolon, which to the other lexer is inside the comment |
| SqlSplitter.SemicolonInCommentSplits | packages/db/src/splitStatements.ts:57-72 | the script `/*/;*/` is one comment, and the program cuts it at the semicolon into two statements |
| SqlSplitter.NothingLost | packages/db/src/splitStatements.ts:91-97 | the texts between the cuts and the semicolons at them are the whole script |
| SqlSplitter.CutsAreTopLevelSemicolons | packages/db/src/splitStatements.ts:30-97 | a position is a cut exactly when it holds a semicolon outside every quote, comment and dollar body |
| SqlSplitter.QuoteHides | packages/db/src/splitStatements.ts:58-69 | from a single quote at top level to the next one no position is at top level, and the one behind it is; without a next one, none to the end |
| SqlSplitter.LineCommentHides | packages/db/src/splitStatements.ts:30-75 | from two hyphens to the end of the line no position is at top level, and the one behind the line feed is |
| SqlSplitter.BlockCommentHides | packages/db/src/splitStatements.ts:36-81 | from slash and asterisk to the first asterisk and slash behind the slash no position is at top level, and the one behind them is |
| SqlSplitter.CommentHidesProperly | packages/db/src/splitStatements.ts:36-81 | to the other lexer a block comment ends at the first asterisk and slash behind both opening characters |
| SqlSplitter.DollarBodyHides | packages/db/src/splitStatements.ts:47-90 | from a dollar quote, whose name is empty or a letter or underscore and then letters, digits and underscores, to its next occurrence no position is at top level, and the one behind it is |
| SqlSplitter.OtherwiseNothingHides | packages/db/src/splitStatements.ts:64-99 | behind any other character at top level the text is at top level |
| SqlSplitter.StatementsAreTrimmed | packages/db/src/splitStatements.ts:92-104 | every statement is non-empty and has no white space at its ends |
| SqlSplitter.Carry | packages/db/src/splitStatements.ts:30-81 | a statement reads the same when joined again, even when it ends inside a comment or an unclosed quote |
| SqlSplitter.SplitAgain | packages/db/src/splitStatements.ts:17-105 | for every script, joining its statements with newline, semicolon, newline and splitting again gives the same statements |
| Ledger.RootPodActions | services/cc-gateway/src/ledger.ts:30-45 | an action is held exactly when some credential of authority carries it that the pod itself issued to the subject, with the pod as its scope and no parent, and that is in force; nothing passed on or issued by others counts |
| Ledger.HighestBand | services/cc-gateway/src/ledger.ts:70-74 | the highest band held, or the first |
| Ledger.OfflineCounted | services/cc-gateway/src/pay.ts:237-247 | offline credits count for their payee on the UTC day, from midnight for 86400000 ms, in which they were settled |
| Ledger.TransferKeepsSum | services/cc-gateway/src/ledger.ts:196-199 | moving any amount between two accounts keeps the sum of all balances |
| Ledger.SettlingKeepsBooksIff | services/cc-gateway/src/ledger.ts:182-218 | settling a requested entry leaves every balance equal to settled inflows minus outflows if and only if the amount is the entry's own |
| Ledger.RecordingKeepsBooks | services/cc-gateway/src/ledger.ts:210-216 | a payment inserted with the amount that moved always keeps balances equal to settled inflows minus outflows |
| Ledger.BooksSumToZero | services/cc-gateway/src/ledger.ts:1-6 | consistent books conserve credit: net settled flows sum to zero over all accounts |
| Payments.OtherAmountBreaksBooks | services/cc-gateway/src/ledger.ts:182-218 | two accounts and a request for 500 settled for 400: the books no longer agree with the balances |
| Payments.Gateway.BalancesSumToZero | services/cc-gateway/src/ledger.ts:1-6 | in every valid state balances sum to zero |
| Payments.Gateway.OpenAccount | services/cc-gateway/src/ledger.ts:120-131 | an account opens at zero unless there is one, which is then returned untouched |
| Payments.Gateway.OpenMemberAccount | services/cc-gateway/src/ledger.ts:134-139 | needs the holder's own credit:account; the limit is that of the highest band held |
| Payments.Gateway.CreateEnterprise | services/cc-gateway/src/merchant.ts:111-155 | an enterprise account opens with limit 0 and its default ceiling is four fifths of three times the owner's band limit |
| Payments.Gateway.SetEnterpriseLimit | services/cc-gateway/src/merchant.ts:227-241 | changes the limit of an enterprise account exactly for a non-empty reason, which goes on record with its author in place of an earlier one; member accounts are out of reach |
| Payments.Gateway.UpdateRules | services/cc-gateway/src/merchant.ts:244-269 | only the owner, only admissible rules; what is not given stays |
| Payments.Gateway.RaiseBand | services/cc-gateway/src/ledger.ts:146-153 | a member's limit is raised to that of the highest band shown and never lowered |
| Payments.Gateway.Settle | services/cc-gateway/src/ledger.ts:182-220 | succeeds exactly on a positive amount between two existing accounts within the payer's limit, for an unpaid request of the payee or an unused invoice; moves the amount once; keeps the zero sum for any amount, and the invariant exactly when the amount is the entry's own |
| Payments.Gateway.FindEntry | services/pos-adapter/src/tender.ts:122-127 | some row that answers to the text by number or by invoice; nothing only when none does |
| Payments.FoundIff | services/pos-adapter/src/tender.ts:122-127 | every look-up of an invoice comes to its own request if and only if the invoice is not written like the number of another row that is there |
| Payments.StaysFoundIff | services/pos-adapter/src/tender.ts:122-127 | that stays so whatever is rung up later if and only if the invoice is not a number, or is 0 or the number of its own row |
| Payments.HiddenInvoice | services/cc-gateway/src/pay.ts:163-166 | a shop rings up under `first` and then under `1`: the second request is cleared and affordable, but a look-up may come to the first row, for which nothing is cleared |
| Payments.Gateway.CreatePayRequest | services/cc-gateway/src/pay.ts:46-106 | rings up exactly when authority, rules and headroom allow; the request is for at most the sale, the shop's share and its room below the ceiling, under an unused invoice |
| Payments.Gateway.CheckAuthorization | services/cc-gateway/src/pay.ts:128-220 | clears exactly an authorization for which the row that the look-up comes to is an unpaid, identical, pod-signed request in time, signed by the account holder or the enterprise's owner with own credit:account, for exactly the entry's amount |
| Payments.Gateway.ClearedShows | services/cc-gateway/src/pay.ts:128-220 | what clears has shown a credential for credit:account that the pod itself issued to the signer, in force and not passed on; holder, or owner for an enterprise, signed for exactly the entry, in time online or within the windows of an offline payment |
| Payments.Gateway.ClearsWhen | services/cc-gateway/src/pay.ts:128-220 | conversely these, each named field by field, are enough |
| Payments.Gateway.LimitShown | services/cc-gateway/src/ledger.ts:30-45 | a limit rises only for a member who pays, and above that of the first band only on a credential for credit:limit:L2 or L3 that the pod itself issued to the payer, in force and not passed on; with such a credential it does |
| Payments.Gateway.AuthorizePayment | services/cc-gateway/src/pay.ts:128-273 | pays exactly when the row that the look-up comes to is cleared and affordable, once, for the entry's own amount; success shows a root credential of the pod for credit:account held by the signer, and a limit that rose above the first band's one for the higher band; leaves payer within limit, payee within ceiling and within the offline allowance of the UTC day; a refusal rolls everything back, the raised band too; the invariant is kept |
| Payments.Gateway.RecordTender | services/pos-adapter/src/tender.ts:154-193 | records dollars exactly for a settled entry without a tender and only if they make up the rest of the sale to the cent |
| Payments.Gateway.TakeTender | services/cc-gateway/src/routes.ts:122-135 | takes the dollars exactly when the row that the look-up comes to is of a shop the caller acts for, settled, without a tender and made up by them; refuses an unknown text as not found |
| Payments.Gateway.PaidOnce | services/cc-gateway/src/pay.ts:128-273 | over any run no invoice is settled twice and no settled sale tendered twice |
| AuthorityChain.CheckAuthorityChain | packages/credential-core/src/credentials.ts:274-304 | accepts exactly a root followed by links each of which points at, is issued by the subject of, and stays within its parent |
| AuthorityChain.ChainIsNested | packages/credential-core/src/credentials.ts:265-273 | any two links of an accepted chain, however far apart, are nested in actions and window, share one scope, have depth equal to position and issuer equal to the previous subject |
| AuthorityChain.ChainIsShort | packages/credential-core/src/credentials.ts:196-197 | an accepted chain has at most one link more than its root allows |
| AuthorityChain.PassedOnOnce | packages/credential-core/src/credentials.ts:219-224 | without an allowance a root is passed on at most once |
| AuthorityChain.AttenuationExtends | packages/credential-core/src/credentials.ts:227-263 | what attenuation makes of the last link, once signed, extends the accepted chain |
| AuthorityChain.GrownChainsPass | packages/credential-core/src/credentials.ts:212-263 | every chain grown from a root by repeated attenuation passes the checker |
| AuthorityChain.GrownMore | packages/credential-core/src/credentials.ts:227-263 | a chain grows by one link at a time, as long as attenuation of its last link succeeds |
| AuthorityChain.AcceptedLinkIsAttenuation | packages/credential-core/src/credentials.ts:227-304 | conversely an accepted link could have been made by attenuation exactly when its parent is signed, it has names and actions, and its window is positive, inside the parent's and at most thirty days |
| AuthorityChain.CheckDelegationChain | packages/credential-core/src/credentials.ts:367-401 | accepts exactly hops that each delegate the action, allow the hops below, are current and accepted by their steward, linked from the principal to the actor |
| Verifier.RebuildChain | packages/verifier-sdk/src/verify.ts:516-529 | stops on every presentation, cyclic ones included, and finds the chain exactly when a root is reached within the allowed hops |
| Verifier.FoundIffShort | packages/verifier-sdk/src/verify.ts:516-529 | a chain of parents up to a root is found exactly when it has at most nine credentials |
| Verifier.CycleHasNoRoot | packages/verifier-sdk/src/verify.ts:524-526 | a credential whose ancestry comes back to it has no root, so refusing it loses nothing |
| Verifier.AuthorityProblem | packages/verifier-sdk/src/verify.ts:510-548 | finds nothing wrong exactly when the chain to the root is complete, current at every link, accepted by the chain checker and rooted at an accepted pod |
| Verifier.BackedByPod | packages/verifier-sdk/src/verify.ts:506-509 | a credential found good has only actions of a root issued by the recognised pod, or by an accepted one, in the same scope, and both are in force within the skew |
| Verifier.BackedWhen | packages/verifier-sdk/src/verify.ts:506-548 | conversely a chain of at most nine that the checker accepts, every link in force within the skew and its root from the pod, makes its last credential good |
| Verifier.FindAuthority | packages/verifier-sdk/src/verify.ts:292-310 | finds a credential exactly when the subject has a good one of its own that names the action, at the required place or else at the pod, and that has no parent unless the action is pay:receive |
| Verifier.DelegationChainFor | packages/verifier-sdk/src/verify.ts:456-469 | stops on every presentation; nothing exactly when no grant of the action reaches the holder, otherwise the one trail in which every hop, from the holder back, is the first grant that leads on and is not taken yet, until none is left |
| Verifier.ViaIsUnique | packages/verifier-sdk/src/verify.ts:456-469 | there is one such trail for an action, and it never takes a grant twice, so the guard on its length never stops it |
| Verifier.CheckDelegation | packages/verifier-sdk/src/verify.ts:472-504 | passes exactly an accepted chain; its scope is what every hop delegates |
| Verifier.MeetRequirements | packages/verifier-sdk/src/verify.ts:320-346 | succeeds if and only if none of the requirements is for unscoped pay:receive and one principal will do for all that the holder lacks: the accepted trail for each such action starts with that principal, who holds the authority; names that principal, and as scope exactly what those trails pass on at every hop |
| Verifier.Collect | packages/verifier-sdk/src/verify.ts:349-372 | reports exactly what good credentials of holder and principal contribute, and the highest tier of the holder's own roots |
| Verifier.ReportedWhen | packages/verifier-sdk/src/verify.ts:349-372 | every action that a good credential of the holder names, or one of the principal within the lent scope, is reported: by itself from a root at the pod, otherwise with its scope, and from a forwarded one only pay:receive |
| Verifier.Authorize | packages/verifier-sdk/src/verify.ts:262-372 | succeeds exactly when the requirements can be met, never for unscoped pay:receive and always for what the holder has itself; what was required is among what is reported, by itself or at its scope; reports exactly what good credentials of the holder give and those of the one principal within the lent scope, with the highest tier of the holder's own roots; each of these is justified, and a forwarded credential makes nobody more than a receiver of payments at its scope |
| Verifier.CheckMembership | packages/verifier-sdk/src/verify.ts:401-451 | returns a pod exactly when the first accepted grant that is answered, or else the first accepted grant, and the first acknowledgement of its digest make a complete pair, both current within the skew; a gate that requires membership gets one or refuses |
| Verifier.RecognisedBelongs | packages/verifier-sdk/src/verify.ts:401-451 | whoever is recognised does hold a complete and current pair with that pod |
| Verifier.RecognisedIffFirst | packages/verifier-sdk/src/verify.ts:423-434 | a complete and current pair is what the gate recognises if and only if no accepted grant before its grant is answered and no acknowledgement before its acknowledgement matches |
| Verifier.RenewalOverlooked | packages/verifier-sdk/src/verify.ts:423-434 | a pair that has run out, presented before its renewal: the holder belongs to the pod and is recognised by none; with the renewal first, the pod recognises the holder |
| Verifier.Verify | packages/verifier-sdk/src/verify.ts:257-372 | succeeds exactly when membership is recognised, or not required, and the requirements can be met with the recognised pod as the only root; every required action is among what is reported, by itself or at its scope, so nobody is let in on a credential that is not reported; reports exactly what is to be reported with that root, all of it justified |
| Pep.TiersAreCumulative | services/pod-vta/src/pep.ts:47-54 | higher tiers may do all that lower ones may, with the policy hook too; only T0 may do nothing; receiving payments comes with no tier |
| Pep.ActionsByTier | packages/vocab/src/index.ts:71-109 | the tier at which each action of the vocabulary comes, and the hook by which T2 may witness |
| Pep.Withdraw | services/pod-vta/src/pep.ts:179-205 | revokes exactly the member's valid rows that are above the entitlement or carry actions their tier no longer has |
| Pep.ReceivingSurvivesIff | services/pod-vta/src/pep.ts:193-205 | a valid merchant row of the member outlives a refresh if and only if downgrades wait for expiry |
| Pep.ReceivingLost | services/pod-vta/src/pep.ts:193-205 | a run: a merchant row is logged, a refresh with immediate downgrades at an unchanged tier revokes it |
| Pep.Office.IssueIfStale | services/pod-vta/src/pep.ts:220-234 | issues one row at the entitled tier exactly when the newest one there is missing, incomplete or expires within seven days |
| Pep.Office.Refresh | services/pod-vta/src/pep.ts:162-242 | revokes nothing under the usual policy, issues at most one row and never above the higher of recommendation and governance, valid for what is configured up to 90 days less a minute, leaves a complete row at that tier, and returns the highest tier then held; members.tier is not written; refused exactly to who is no member or left a grant unacknowledged, or when the validity is a minute or less |
| Pep.FreshAfterIssue | services/pod-vta/src/pep.ts:227 | a row just issued counts as fresh exactly when the validity less a minute outlasts the window |
| Pep.SecondRefresh | services/pod-vta/src/pep.ts:220-234 | a second refresh at the same instant issues again if and only if the first one issued under a validity shorter than seven days and a minute; with eight days it changes nothing |
| Pep.Office.NoDowngradeMidValidity | services/pod-vta/src/pep.ts:150-161 | over any run, when a later refresh gives less, all authority above the later tier that an earlier one left has by then expired or been revoked, and there was some; when every refresh of the member since then waited for expiry, what has not expired was revoked by decision |
| Pep.Office.RevokeAuthority | services/pod-vta/src/pep.ts:305-321 | marks the newest row with the digest and nothing else; a second revocation keeps the first date |
| Pep.Office.RecordGovernanceTier | services/pod-vta/src/pep.ts:256-263 | writes the governance tier of a member, with a logged reason, and nothing else |
| Pep.Office.StewardSetTier | services/pod-vta/src/pep.ts:273-289 | a steward sets T0 to T2, only for members below T3 and below the steward |
| Pep.Office.LogMerchantAuthority | services/cc-gateway/src/merchant.ts:160-185 | merchant root credentials enter the same log with the owner's tier |
| StatusList.BuildList | services/pod-vta/src/pep.ts:338-350 | whole bytes, at least 131072 bits, room for the largest id and no more than that needs; exactly the bits of revoked rows are set (sections 3.3 and 3.4 of W3C Bitstring Status List v1.0) |
| StatusList.SetBit | services/pod-vta/src/pep.ts:346-350 | setting a bit, most significant first, changes the reading of that bit and of no other |
| StatusList.ReadFromTheTop | packages/verifier-sdk/src/status.ts:31-36 | index 8q+k is read in byte q under the mask with index k of 0x80, 0x40 and so on down to 0x01 |
| StatusList.RoundTrip | packages/verifier-sdk/src/status.ts:31-51 | a verifier reads a row as revoked exactly when it is, and never finds its index outside the list |
| Pep.Office.PublishStatusList | services/pod-vta/src/pep.ts:338-350 | a verifier of the published list reads every row of the log as revoked exactly when it is |
| Pep.RevocationShows | services/pod-vta/src/pep.ts:305-350 | after a row has been revoked the list reads it as revoked and every other row as before |
| Admission.PairDigestIdentifies | services/pod-vta/src/edges.ts:20-23 | the pair digest is the same exactly for the same two halves, in either order |
| Admission.FindPair | services/pod-vta/src/edges.ts:48-56 | the nested search finds a mirrored pair with the digest, and nothing only when there is none |
| Admission.TierIsCapped | services/pod-vta/src/events.ts:238-248 | the tier recorded for a witness is the lower of what the session and the pod say now |
| Admission.Registry.CreateEvent | services/pod-vta/src/events.ts:79-147 | a gathering with its convener is added exactly when it ends after it starts, under an unused id; nothing else changes and no meeting gains a record |
| Admission.Registry.ExistingWitness | services/pod-vta/src/events.ts:182-193 | a known pair gives its own witness the stored credential back and refuses everybody else |
| Admission.Registry.IssueWitness | services/pod-vta/src/events.ts:255-294 | adds one record for a new pair; for a known one returns it to its witness or refuses, with no change, even if it was written after the request first looked |
| Admission.Registry.WitnessEdge | services/pod-vta/src/events.ts:309-332 | succeeds exactly for a convener who is neither party, at an attestation event with a task, for a pair nobody else witnessed, from an hour before the start to a day after the end or as a recovery; a meeting keeps to one record if and only if the event named is a gathering |
| Admission.Registry.WitnessMeeting | services/pod-vta/src/events.ts:415-441 | a meeting that is kept has its record and only that one, and a recovery, even one found late, leaves no meeting behind |
| Admission.TwoRecordsAtOneMeeting | services/pod-vta/src/events.ts:309-332 | the witness who made a meeting names it as the event of another pair: the meeting then has two records |
| Admission.AtMostTwo | services/pod-vta/src/membership.ts:127-128 | a record that only its two parties may use, each once, admits at most two people, and one party always finds room |
| Admission.Registry.CheckWitness | services/pod-vta/src/membership.ts:66-130 | passes exactly a current witness credential on record, witnessed with authority and tier, whose two signed halves the applicant presents and is party to; the refusal as used is unreachable here |
| Admission.Registry.ApplyMembership | services/pod-vta/src/membership.ts:175-233 | succeeds if and only if the witness credential and the signed halves hold up for the applicant and the applicant has an unexpired grant or is not yet among the record's users, unless seen there, with a validity above the margin; a new grant puts the applicant into the users, an unexpired one is returned with no change; the record is refused as used only to an applicant whom a concurrent request of their own has admitted |

## Left out

- Cryptography and encodings (Ed25519, SHA-256, HKDF, AES-GCM, JSON canonicalization, base58, base64url, gzip): outcomes of checks are parameters, and the status list is modelled as decoded bytes.
- Floating point: the 1e-9 nudges, `round2`, `round6` and the decay power; `share` in a tally entry is the exact quotient and contributions are arbitrary reals.
- The tier ladder of the trust index (`recommend`, `endorsementSum`, `spreadFactor`, `hopFactor`): sums of floats compared with thresholds, one branch at a time; `Pep.Office.Refresh` takes any recommendation.
- Texts, titles, places, receipts, explanations, record publishing and the `votes` alias of a tally entry: copied, not decided upon.
- HTTP routing, sessions, cookies, schema validation of JSON, environment and command line; malformed claims inside a credential, unreadable dates, and the format of a ballot's creation time.
- The earlier steps of `verifyDTG` (challenge and domain binding, signatures, known predicates, validity ceilings) and its status step: each is a refusal of its own and precedes or follows what `Verifier.Verify` models.
- `merchant_staff`: whether a member who is not the owner is active staff is a parameter of `Payments.Gateway.CreatePayRequest` and `Payments.Gateway.TakeTender`.
- `acknowledgeMembership`: beyond the pair check that `AuthorityChain` has, it is one update of a row.
- `smokeTransfer`, `ceremonyBackHalf`, `commit.ts`, anomaly flags, provisioning, the wallet database and the outbox.
- `signedPart` and the signature over a ballot without its annotations: in `BallotBox` the signed part is a field of its own.
- Payments.Gateway.CheckAuthorization: does not say which of several true reasons a refusal gives.
- Verifier.AuthorityProblem: does not say which of several true reasons a refusal gives.
- Characters: Dafny's characters are Unicode scalar values, whereas the program compares UTF-16 code units; the two orders differ beyond the basic multilingual plane.
- Numbers of rows too large for the database, which it refuses to look up, and the parsing of a tender.
- Rounds.Pod.SubmitBallot: does not say which of several true reasons a refusal gives.
- Pep.Office.Refresh: a failure to sign a credential, which removes the unsigned row again, is not modelled.
- FieldTables.Tables.constructor: byte arrays hold natural numbers below 256, so the masking of `Uint8Array` stores is not modelled; no stored value needs it.
