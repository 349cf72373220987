# Which SIDs are in a token, and why

A Dafny model of the parts of the `ad_resolver` crate that decide which SIDs an
Active Directory account carries in its logon token. The crate promises to be
deterministic, to drop nothing silently and never to guess; the model states
these promises as theorems over all inputs, all graphs, all byte strings and
all answers of the servers, and where the code does not keep one, says exactly
when it does.

* **Membership assembly.** `Directory` holds the data. `Routes` defines
  distances and predecessors by chains of memberships alone; `RouteSearch` runs
  the breadth-first search and `RouteChains` reads chains off the table.
  `Assembly` is the assembly loop against its reference definition;
  `AssemblyFacts`, `AssemblyConservation` and `AssemblyAccounting` prove safe
  exclusion, real paths and conservation; `AssemblyOrder`, `AssemblyHistory` and
  `AssemblyScan` say when the order of the answers matters. `TokenExactness`
  compares the result with the true directory, `RangedToken` starts from the
  attribute ranges, `TokenGroups` uses the domain controller's own list.
* **Binary formats.** `SidUtil` (section 2.4.2 of MS-DTYP, section 3 of
  RFC 4515), `ForestTrustInfo` and `ForestTrustCodec` (section 6.1.6.9.3 of
  MS-ADTS), `SecurityDescriptor` and `DaclCodec` (sections 2.4.4 to 2.4.6 of
  MS-DTYP), over `Bytes` and `Text`. The encoders exist only in the model.
* **Selective Authentication.** `SelectiveAuth`: a three-valued access check
  for a token known in part.
* **Trusts.** `Trusts` and `TrustFacts` classify the domain of a SID; `Trusted`,
  `TrustedFacts`, `TrustedAccount` and `TrustedAccountFacts` select, filter and
  continue memberships across a trust.
* **Protocol and cache state.** `RangeRetrieval` (section 3.1.1.3.1.3.3 of
  MS-ADTS), `SidNames`, `LocalGroups` with `StableSort`, and the SID pipeline in
  `Principal`, `PrincipalFacts` and `HistoryFacts`.

A lower-cased distinguished name is its rank (`Dn`, a natural number); a display
name carries the rank of its lower-cased form. The directory servers, the local
security authority and the trusted domain are functions or arbitrary data, so
every statement covers everything they may answer.

Some statements of the source hold only under a condition. Each is given with an
input on which it fails and with its exact condition:

* "Orphaned" is documented as the verdict on an account the directory proves gone
  (`crates/ad_resolver/src/principal.rs:96-98`). The scope keeps to that
  (`PrincipalFacts.OrphanedExact`), but the marker follows the kind of the
  identity, and the local authority reports deleted accounts with the orphaned
  kind (`crates/ad_resolver/src/sam.rs:746`). `PrincipalFacts.OutsideAndOrphaned`
  and `PrincipalFacts.ResolvedAndOrphaned` are two such inputs,
  `PrincipalFacts.OrphanedMarkerExact` and
  `PrincipalFacts.MarkersAreExactUnlessDeleted` the exact conditions.
* The result is documented as identical whatever the order of entries and
  attribute values (`crates/ad_resolver/src/resolver.rs:835-841`). It is not for
  `sIDHistory` (`AssemblyHistory.HistoryOrderShows`); everything else is
  (`AssemblyHistory.OnlyHistoriesDiffer`), and `AssemblyHistory.EqualExactly` says
  when all of it is. Answers of one name that disagree are covered by
  `AssemblyScan.ScanForgetsOrderExactly`.
* The trust's SID filtering is documented to take out SIDs of other domains and
  to report them (`crates/ad_resolver/src/trusted.rs:16-20`). The historical SIDs
  of a dropped group go with it, unreported and whatever their domain
  (`TrustedAccountFacts.MigratedSidIsLost`, `TrustedFacts.PassingSidIsLost`); `TrustedFacts.FilterIsSilentUnless` and
  `TrustedAccountFacts.NothingIsSilentExactly` are the exact conditions.
* Unread historical SIDs of a group show only when its first membership states
  them (`HistoryFacts.LaterUnreadValuesAreNotShown`,
  `HistoryFacts.TallyForgetsOrderExactly`).
* Every entry ends in one place unless the primary group does not fit
  (`AssemblyAccounting.EveryEntryIsAccountedFor`):
  `AssemblyAccounting.UnreadablePrimaryIsInTwoPlaces` and
  `AssemblyAccounting.DistributionPrimaryIsInTwoPlaces` are inputs where it does
  not.
* The documentation at `crates/ad_resolver/src/selective_auth.rs:224-228` calls an
  answer decided when the two extreme tokens agree.
  `SelectiveAuth.MixedPolarityCounterexample` is a list for which a token between
  them gets another answer; `SelectiveAuth.DecidedAnswerIsSound` gives the exact
  condition.
* SID texts with a sign, leading zeros, white space, an authority of 2^48 or
  more or over 255 sub-authorities are accepted but not reproduced
  (`SidUtil.LeadingZeroIsLost`, `SidUtil.TextRoundTrip`).

## Model

| member | source | states |
|---|---|---|
| `Routes.DistIsShortest` | crates/ad_resolver/src/resolver.rs:707-767 | A group is in `dist` exactly when some chain of direct memberships inside the closure leads to it from a first-hop group, and `dist` is the length of a shortest such chain, for every graph, cyclic ones included |
| `Routes.DistStep` | crates/ad_resolver/src/resolver.rs:755-767 | Following one membership edge leads to a reached group whose distance is at most one larger |
| `Routes.RouteStep` | crates/ad_resolver/src/resolver.rs:707-767 | The steps of a route are real memberships of closure groups and its first group is a first-hop group |
| `Routes.NearerExists` | crates/ad_resolver/src/resolver.rs:769-784 | Distance one means first hop; every other reached group has a direct member one hop nearer |
| `Routes.PredIsLeast` | crates/ad_resolver/src/resolver.rs:769-784 | Every reached group beyond hop one has a predecessor: a direct member at the distance before, and the first such group by name |
| `RouteSearch.BuildChildren` | crates/ad_resolver/src/resolver.rs:731-744 | The reverse edges are exactly the edges of the closure, each child list sorted and without repetition |
| `RouteSearch.EnqueueSeeds` | crates/ad_resolver/src/resolver.rs:746-753 | The queue starts with the first-hop groups of the closure, at distance one |
| `RouteSearch.FollowParents` | crates/ad_resolver/src/resolver.rs:754-767 | One step of the search: distances found stay, are lengths of real routes, and the queue stays within one of the current distance |
| `RouteSearch.BuildDist` | crates/ad_resolver/src/resolver.rs:746-767 | The queue-driven search computes the distances that are defined by routes alone |
| `RouteSearch.FirstNearer` | crates/ad_resolver/src/resolver.rs:775-782 | The first child one hop nearer in sorted order is the least one |
| `RouteSearch.BuildPred` | crates/ad_resolver/src/resolver.rs:769-784 | The predecessors are those of the definition |
| `RouteSearch.Build` | crates/ad_resolver/src/resolver.rs:730-791 | The route table holds exactly the shortest distances, least predecessors and reverse edges |
| `RouteChains.ChainTo` | crates/ad_resolver/src/resolver.rs:795-814 | The chain loop computes the chain read off the predecessors, with its length guard |
| `RouteChains.DistBounded` | crates/ad_resolver/src/resolver.rs:795-814 | No distance exceeds the number of reached groups, so the length guard never fires |
| `RouteChains.ChainExact` | crates/ad_resolver/src/resolver.rs:795-814 | A chain is found exactly for the reached groups; it is a real route of length `dist` from a first-hop group, each step the chosen predecessor |
| `RouteChains.OtherEntriesExact` | crates/ad_resolver/src/resolver.rs:816-828 | The further routes of a group are its other direct members, without the skipped one |
| `Assembly.ScanEntries` | crates/ad_resolver/src/resolver.rs:849-889 | First entry per name wins, groups without a readable SID are collected, the principal itself is no group |
| `Assembly.ListExcluded` | crates/ad_resolver/src/resolver.rs:910-926 | The loop lists the excluded groups in order with their reason, and the counted groups of unknown type |
| `Assembly.Reduce` | crates/ad_resolver/src/resolver.rs:927-938 | What remains are the groups that are neither distribution groups nor reached only through one |
| `Assembly.ExcludeGroups` | crates/ad_resolver/src/resolver.rs:891-938 | Excluded list, unknown types and reduced closure together, from two route tables |
| `Assembly.FindOutside` | crates/ad_resolver/src/resolver.rs:943-962 | The targets of the principal and of kept groups that are nowhere in the result |
| `Assembly.FindPath` | crates/ad_resolver/src/resolver.rs:1062-1102 | The shown path of a group: the reconstructed chain, or an incomplete two-node path |
| `Assembly.EmitRest` | crates/ad_resolver/src/resolver.rs:1045-1114 | The memberships after the primary group, in the order of distance, name, DN |
| `Assembly.EmitMemberships` | crates/ad_resolver/src/resolver.rs:1013-1114 | The primary group first, then the rest |
| `Assembly.AssembleMemberships` | crates/ad_resolver/src/resolver.rs:842-1122 | The whole assembly computes the memberships, gaps, token-set gaps and excluded groups of the reference definition, which speaks of reachability and not of searches |
| `AssemblyFacts.ExcludedListExact` | crates/ad_resolver/src/resolver.rs:910-926 | Each group left out is named with the right reason, and no other group is named |
| `AssemblyFacts.ReducedRoutesAgree` | crates/ad_resolver/src/resolver.rs:903-938 | On the reduced closure the reached groups, distances and predecessors are those of the security-only graph, so routes recomputed at the end agree with those that decided |
| `AssemblyFacts.RouteSurvives` | crates/ad_resolver/src/resolver.rs:891-938 | A security-only route meets no excluded group |
| `AssemblyFacts.ClosureFrom` | crates/ad_resolver/src/resolver.rs:852-889 | Each closure group is the first entry of its name that has a SID other than the principal's |
| `AssemblyFacts.NoSidExact` | crates/ad_resolver/src/resolver.rs:862-867 | A group is reported without SID exactly when an entry of it that shows none comes before any that enters the closure |
| `AssemblyFacts.InOrderSorted` | crates/ad_resolver/src/resolver.rs:1046-1059 | The emitted order increases strictly in distance, name, DN |
| `AssemblyOrder.OrderIndependent` | crates/ad_resolver/src/resolver.rs:835-841 | Permuting or repeating entries or `memberOf` values leaves memberships, gaps and excluded groups identical, when the entries of one DN agree, histories included |
| `AssemblyHistory.BareAssemble` | crates/ad_resolver/src/resolver.rs:842-1122 | Taking the historical SIDs out of the answers takes them out of the result and changes nothing else |
| `AssemblyHistory.OnlyHistoriesDiffer` | crates/ad_resolver/src/resolver.rs:835-841 | When the order of `sIDHistory` values varies too, everything but the history fields stays identical |
| `AssemblyHistory.EqualExactly` | crates/ad_resolver/src/resolver.rs:835-841 | The whole results are then identical if and only if the emitted groups have their historical SIDs in the same order |
| `AssemblyHistory.HistoryOrderShows` | crates/ad_resolver/src/resolver.rs:1583-1601 | Two concrete inputs that differ only in the order of two historical SIDs and give different results |
| `AssemblyScan.ScanForgetsOrderExactly` | crates/ad_resolver/src/resolver.rs:852-889 | All orders of the answers give the same closure and no-SID groups if and only if the answers of one DN that become groups become the same group and none of that DN comes without SID |
| `AssemblyScan.AgreeingAnswersSuffice` | crates/ad_resolver/src/resolver.rs:842-1122 | Then the whole result is the same in every order |
| `AssemblyAccounting.EveryEntryIsAccountedFor` | crates/ad_resolver/src/resolver.rs:849-990 | When the entries agree about each object, however often it is returned: every entry ends in exactly one place (principal, no-SID gap, excluded list, one membership) if and only if the primary group fits: its entry shows the SID it was looked up by and no search returns it as a distribution group |
| `AssemblyAccounting.MisfitIsInTwoPlaces` | crates/ad_resolver/src/resolver.rs:862-938 | Whenever the primary group does not fit, some entry ends in two places |
| `AssemblyAccounting.ScannedExact` | crates/ad_resolver/src/resolver.rs:849-889 | What the first-entry-wins scan makes of each entry: no-SID, principal, or closure group with the type the searches state |
| `AssemblyAccounting.AtMostOne` | crates/ad_resolver/src/resolver.rs:1013-1114 | No SID has two memberships |
| `AssemblyConservation.MembershipsComeFromEntries` | crates/ad_resolver/src/resolver.rs:1013-1114 | No membership without an entry or the primary group behind it |
| `AssemblyConservation.MembershipSids` | crates/ad_resolver/src/resolver.rs:1013-1114 | The SIDs with a membership are those of the kept groups and the primary group |
| `AssemblyAccounting.PrimaryIsKept` | crates/ad_resolver/src/resolver.rs:873-878 | The primary group is kept if and only if no search returns it as a distribution group |
| `AssemblyConservation.UnknownTargetsAreReported` | crates/ad_resolver/src/resolver.rs:940-990 | A `memberOf` target of the principal or of a kept group that is neither an entry nor the principal is in the outside gap |
| `AssemblyAccounting.UnreadablePrimary` | crates/ad_resolver/src/resolver.rs:862-867 | A primary group entry without readable SID is reported as missing and counted: two places |
| `AssemblyAccounting.UnreadablePrimaryIsInTwoPlaces` | crates/ad_resolver/src/resolver.rs:862-867 | A concrete input of that kind |
| `AssemblyAccounting.DistributionPrimary` | crates/ad_resolver/src/resolver.rs:873-938 | A primary group that a search returns as a distribution group is excluded and counted: two places |
| `AssemblyAccounting.DistributionPrimaryIsInTwoPlaces` | crates/ad_resolver/src/resolver.rs:873-938 | A concrete input of that kind |
| `AssemblyAccounting.NestedPrimaryIsInTwoPlaces` | crates/ad_resolver/src/resolver.rs:1013-1043 | A concrete input where a primary group without entry is excluded, as reached only through a distribution group, and counted: these two places |
| `AssemblyConservation.GapsExact` | crates/ad_resolver/src/resolver.rs:963-991 | The three gaps name exactly the groups of unknown type, without SID, and outside |
| `AssemblyConservation.ExcludedIffListed` | crates/ad_resolver/src/resolver.rs:910-934 | A group is left out exactly when the excluded list names it |
| `AssemblyConservation.CompletePathIsReal` | crates/ad_resolver/src/resolver.rs:1062-1102 | A path is complete exactly when a chain of kept groups exists; it is then the principal followed by a shortest real chain |
| `AssemblyConservation.CompletePathAvoidsDistributionGroups` | crates/ad_resolver/src/resolver.rs:903-938 | Every node after the principal on a complete domain-group path of the result is a kept group not known to be a distribution group |
| `AssemblyConservation.FurtherRoutesExact` | crates/ad_resolver/src/resolver.rs:1076-1084 | The further routes shown are exactly the direct members among the kept groups except the shown last hop |
| `TokenExactness.TokenIsComplete` | crates/ad_resolver/src/resolver.rs:842-1122 | With true answers and neither an outside nor a no-SID gap, every security group reached from the direct or primary groups through security groups only is among the memberships |
| `RangedToken.ReadIsComplete` | crates/ad_resolver/src/resolver.rs:586-597 | A membership list completed from true range labels holds every value |
| `RangedToken.TokenFromRangesIsComplete` | crates/ad_resolver/src/resolver.rs:586-641 | When every membership list was completed from true labels, the true token is complete without assuming any list |
| `TokenExactness.TokenIsExact` | crates/ad_resolver/src/resolver.rs:842-1122 | With true answers, no gap and complete paths, the memberships are exactly the true token |
| `TokenExactness.TargetIsKnown` | crates/ad_resolver/src/resolver.rs:950-962 | Without a gap every membership target is an entry or the principal |
| `TokenGroups.SilentExactly` | crates/ad_resolver/src/resolver.rs:1294-1328 | The cross-check is silent exactly when group SIDs are in `tokenGroups` and these in the counted SIDs, histories included |
| `TokenGroups.HistoriesExact` | crates/ad_resolver/src/resolver.rs:1103-1113 | From true and complete answers the memberships carry exactly the historical SIDs of the groups that belong into the token |
| `TokenGroups.TrueTokenPasses` | crates/ad_resolver/src/resolver.rs:1294-1328 | A token assembled from true and complete answers without gaps passes the cross-check against a true list |
| `TokenGroups.SizeGapExact` | crates/ad_resolver/src/resolver.rs:1334-1356 | The size gap is stated exactly when the true token has more than 1,015 SIDs, with their number |
| `ForestTrustInfo.Reader.Take` | crates/ad_resolver/src/forest_trust_info.rs:46-55 | Advances by exactly n bytes and returns them, or fails and leaves the position |
| `ForestTrustInfo.Reader.ReadU32` | crates/ad_resolver/src/forest_trust_info.rs:57-60 | Reads a little-endian number and advances by four |
| `ForestTrustInfo.Reader.ReadU8` | crates/ad_resolver/src/forest_trust_info.rs:62-64 | Reads one byte and advances by one |
| `ForestTrustInfo.Reader.ReadName` | crates/ad_resolver/src/forest_trust_info.rs:66-77 | Length-prefixed name: length limits, UTF-8, no control characters, in that order |
| `ForestTrustInfo.Reader.ReadSid` | crates/ad_resolver/src/forest_trust_info.rs:104-116 | Length-prefixed SID whose count byte matches its length |
| `ForestTrustInfo.Reader.ReadNameRecord` | crates/ad_resolver/src/forest_trust_info.rs:100-102 | A record of one name |
| `ForestTrustInfo.Reader.ReadDomainRecord` | crates/ad_resolver/src/forest_trust_info.rs:103-125 | A domain record: SID, DNS name, NetBIOS name |
| `ForestTrustInfo.Reader.ReadPayload` | crates/ad_resolver/src/forest_trust_info.rs:99-139 | The data of a record by its type; an unknown type is skipped only by a stated length |
| `ForestTrustInfo.Reader.ReadRecord` | crates/ad_resolver/src/forest_trust_info.rs:94-145 | One record of any type, its stated length checked against what was read |
| `ForestTrustInfo.ReadRecords` | crates/ad_resolver/src/forest_trust_info.rs:92-146 | The record loop yields what reading record after record yields |
| `ForestTrustInfo.ParseForestTrustInfo` | crates/ad_resolver/src/forest_trust_info.rs:82-154 | The reader-based parser computes the position-passing specification, errors included |
| `ForestTrustCodec.ParseEncode` | crates/ad_resolver/src/forest_trust_info.rs:82-154 | Parsing the encoding of at most 10,000 valid records, each known one with its true length or zero, returns exactly its domain records in order |
| `ForestTrustCodec.AcceptedIsEncoding` | crates/ad_resolver/src/forest_trust_info.rs:82-154 | Everything accepted is the encoding of such records, consumed whole |
| `ForestTrustCodec.AcceptedIffEncoding` | crates/ad_resolver/src/forest_trust_info.rs:82-154 | Accepted values and encodings are the same byte strings |
| `ForestTrustCodec.AcceptedLength` | crates/ad_resolver/src/forest_trust_info.rs:93-153 | An accepted value has at least 8 + 17 times count bytes |
| `ForestTrustCodec.PrefixFree` | crates/ad_resolver/src/forest_trust_info.rs:45-154 | No strict extension of an accepted value is accepted |
| `ForestTrustCodec.TruncationIsRejected` | crates/ad_resolver/src/forest_trust_info.rs:45-154 | No strict prefix of an accepted value is accepted |
| `ForestTrustCodec.RecordForward` | crates/ad_resolver/src/forest_trust_info.rs:94-145 | An encoded record is read back and the reader stops right behind it |
| `ForestTrustCodec.RecordBackward` | crates/ad_resolver/src/forest_trust_info.rs:94-145 | An accepted record is an encoded record |
| `SidUtil.SidStrToBytes` | crates/ad_resolver/src/sid_util.rs:27-72 | The text parser with its push loops computes the binary form, or the right error |
| `SidUtil.BytesToSidStr` | crates/ad_resolver/src/sid_util.rs:75-114 | The binary parser computes the text form, or the right error |
| `SidUtil.DecodeOfEncode` | crates/ad_resolver/src/sid_util.rs:27-114 | Decoding an encoded SID gives the authority modulo 2^48 and as many sub-authorities as the count byte holds |
| `SidUtil.BytesRoundTrip` | crates/ad_resolver/src/sid_util.rs:27-114 | Every byte string of length 8 + 4 times its count byte survives the way through text |
| `SidUtil.TextRoundTrip` | crates/ad_resolver/src/sid_util.rs:27-114 | An accepted text survives the way through bytes if and only if it is canonical: no sign, leading zero or white space, authority below 2^48, at most 255 sub-authorities |
| `SidUtil.LeadingZeroIsLost` | crates/ad_resolver/src/sid_util.rs:36-42 | A concrete text, with a leading zero in its revision, that is accepted and not reproduced |
| `SidUtil.SidTextsDiffer` | crates/ad_resolver/src/sid_util.rs:75-114 | Different binary SIDs have different texts |
| `SidUtil.UnescapeEscape` | crates/ad_resolver/src/sid_util.rs:117-119 | The filter escape of section 3 of RFC 4515 is read back as the same bytes |
| `SidUtil.FilterMatchesBytes` | crates/ad_resolver/src/sid_util.rs:21-24 | The search filter of a SID text matches exactly its bytes |
| `SecurityDescriptor.ReadObjectAce` | crates/ad_resolver/src/selective_auth.rs:130-156 | An object entry: flags, optional object types, SID inside the entry |
| `SecurityDescriptor.ReadAce` | crates/ad_resolver/src/selective_auth.rs:111-169 | One entry: size checks, the four handled types, the rest skipped |
| `SecurityDescriptor.ReadAces` | crates/ad_resolver/src/selective_auth.rs:108-171 | The entry loop yields what reading entry after entry yields |
| `SecurityDescriptor.ReadDacl` | crates/ad_resolver/src/selective_auth.rs:90-172 | The parser is total on every byte string and computes the specification, errors included |
| `DaclCodec.StoredIsParsed` | crates/ad_resolver/src/selective_auth.rs:90-172 | Entries stored in a list are read back in stored order |
| `DaclCodec.ParsedIsStored` | crates/ad_resolver/src/selective_auth.rs:90-172 | Every accepted list consists of encoded entries whose fields lie inside the entry and the list |
| `DaclCodec.AcceptedIffStored` | crates/ad_resolver/src/selective_auth.rs:90-172 | A list is accepted exactly when it holds encoded entries; none is reported exactly for a self-relative descriptor without one |
| `DaclCodec.Truncation` | crates/ad_resolver/src/selective_auth.rs:90-172 | Cutting a present list or its header is always rejected, bytes behind it do not matter |
| `DaclCodec.ParseEncode` | crates/ad_resolver/src/selective_auth.rs:90-172 | Parsing the encoding of a descriptor returns exactly its entries |
| `DaclCodec.AceForward` | crates/ad_resolver/src/selective_auth.rs:111-169 | An encoded entry is read back and the parser stops right behind it |
| `DaclCodec.AceBackward` | crates/ad_resolver/src/selective_auth.rs:111-169 | An accepted entry is an encoded entry inside the list |
| `SelectiveAuth.DecidedAnswerIsSound` | crates/ad_resolver/src/selective_auth.rs:229-279 | The check gives one answer that holds for every subset of the uncertain SIDs if and only if the first leading entry of each uncertain SID says what the first entry for a certain SID says |
| `SelectiveAuth.OnePolarityIsExact` | crates/ad_resolver/src/selective_auth.rs:229-279 | When the leading entries for uncertain SIDs all allow or all deny, a decided answer is the answer for every possible token |
| `SelectiveAuth.UnknownIsHonest` | crates/ad_resolver/src/selective_auth.rs:248-279 | Unknown from a readable descriptor means two possible tokens disagree |
| `SelectiveAuth.MixedPolarityCounterexample` | crates/ad_resolver/src/selective_auth.rs:248-263 | A concrete list with mixed polarities where the two compared tokens agree and a token in between is refused |
| `SelectiveAuth.ViaDecides` | crates/ad_resolver/src/selective_auth.rs:176-180 | The entry an allowed answer names is for a certain SID, allows, and no earlier entry that takes part is for one |
| `SelectiveAuth.AnswerFromBytes` | crates/ad_resolver/src/selective_auth.rs:229-279 | From the bytes: unreadable is unknown, no list allows, and an answer from a list is the answer for every possible token if and only if the leading entries agree; decided it is that of the certain SIDs, unknown two possible tokens disagree |
| `RangeRetrieval.CompleteRangedAttribute` | crates/ad_resolver/src/ldap_client.rs:653-721 | The client loop computes the specification of the answer and of the attributes left, with at most 1,000 follow-up requests |
| `RangeRetrieval.SuccessIffTiled` | crates/ad_resolver/src/ldap_client.rs:653-721 | For any server, success means exactly that the first chunk and the answers tile 0 to the end without gap or overlap; everything else is an error |
| `RangeRetrieval.NeverShortened` | crates/ad_resolver/src/ldap_client.rs:653-721 | When the labels are truthful, success leaves the whole value list |
| `RangeRetrieval.EndsIncrease` | crates/ad_resolver/src/ldap_client.rs:669-717 | The range end strictly increases from request to request, in every run as far as it goes |
| `RangeRetrieval.LabelRoundTrip` | crates/ad_resolver/src/ldap_client.rs:615-633 | A range label is read back, unless its end lies before its start |
| `RangeRetrieval.PagedListIsCompleted` | crates/ad_resolver/src/ldap_client.rs:653-721 | Against a truthful paging server every list that fits into 1,001 pages is completed |
| `LocalGroups.LocalGroupPath` | crates/ad_resolver/src/local_groups.rs:648-708 | The mutating sort and dedup compute the path of the specification |
| `LocalGroups.MediatorsExact` | crates/ad_resolver/src/local_groups.rs:656-676 | The mediators are strictly ordered and are exactly the token groups among the members: removing adjacent duplicates removes all |
| `LocalGroups.PathIsReal` | crates/ad_resolver/src/local_groups.rs:656-708 | The path is complete exactly when the account or one of its token groups is a direct member; every entry is shown or listed |
| `LocalGroups.PathForgetsOrder` | crates/ad_resolver/src/local_groups.rs:637-708 | Permuting or repeating the members leaves the path identical |
| `LocalGroups.SortLocalGroupChains` | crates/ad_resolver/src/local_groups.rs:629-635 | The in-place sort gives the stably sorted list |
| `LocalGroups.ChainsForgetOrder` | crates/ad_resolver/src/local_groups.rs:626-635 | The sorted chains do not depend on the order of the groups if and only if chains of one name and SID are the same |
| `StableSort.SortIsSorted` | crates/ad_resolver/src/local_groups.rs:629-635 | The result is sorted and a permutation |
| `StableSort.TiesKeepInputOrder` | crates/ad_resolver/src/local_groups.rs:629-635 | Stability for every list: the elements of each key keep their order |
| `StableSort.ForgetsOrderExactly` | crates/ad_resolver/src/local_groups.rs:629-635 | All permutations of a list sort alike if and only if equal keys mean equal elements |
| `SidNames.SidNameResolver.NewForTarget` | crates/ad_resolver/src/sam.rs:651-676 | After construction the cache holds the usable names of the memberships, and the lookups of the other SIDs |
| `SidNames.SidNameResolver.Seed` | crates/ad_resolver/src/sam.rs:682-690 | A valid seed is recorded unless a name is there; an invalid one changes nothing |
| `SidNames.SidNameResolver.Resolve` | crates/ad_resolver/src/sam.rs:695-725 | One call adds exactly the names of the SIDs not yet tried, whatever their order and repetition, and logs each lookup |
| `SidNames.BuildSidNameMap` | crates/ad_resolver/src/sam.rs:564-574 | The batch builder computes the batch map |
| `SidNames.ResolvedSplit` | crates/ad_resolver/src/sam.rs:607-619 | Two calls do what one call with both lists does, lookup by lookup |
| `SidNames.RunIsOneCall` | crates/ad_resolver/src/sam.rs:607-619 | Any number of calls does what one call does |
| `SidNames.StreamingIsBatch` | crates/ad_resolver/src/sam.rs:607-619 | Any split, order and repetition of the trustees gives the batch map |
| `SidNames.RunKeepsNames` | crates/ad_resolver/src/sam.rs:695-725 | Over any run of calls and seeds no SID is looked up twice, keys stay within the tried SIDs, no name changes or disappears |
| `SidNames.SeedSurvives` | crates/ad_resolver/src/sam.rs:682-725 | A seeded name is never overwritten and its SID is not looked up afterwards |
| `SidNames.SeedOrder` | crates/ad_resolver/src/sam.rs:682-725 | Seeding before or after the lookup matters if and only if the lookup yields another name |
| `SidNames.PreNamedExact` | crates/ad_resolver/src/sam.rs:655-668 | Of several named memberships of a SID the last one names it |
| `SidNames.BatchExact` | crates/ad_resolver/src/sam.rs:564-574 | The map holds exactly the membership names and, for the other SIDs, what the lookups yield |
| `Trusts.ClassifyAgainstTrusts` | crates/ad_resolver/src/resolver.rs:1183-1287 | The early-return loops compute the first matching verdict |
| `TrustFacts.AccountDomainExact` | crates/ad_resolver/src/resolver.rs:1615-1643 | The domain of a SID is the domain SID it extends by a RID, and only such SIDs have one |
| `TrustFacts.OtherDomainExact` | crates/ad_resolver/src/resolver.rs:1169-1287 | "Another domain" if and only if no trust object is the domain's, no forest trust lists it, every forest is known, and the view sees every trust that could apply |
| `TrustFacts.TrustedDomainIsBacked` | crates/ad_resolver/src/resolver.rs:1189-1245 | A trusted-domain verdict carries the attributes and forest of a trust that backs it; a forest member is an enabled domain of that forest |
| `TrustFacts.UnusableTrusts` | crates/ad_resolver/src/resolver.rs:1189-1233 | A trust held elsewhere in the forest and a disabled forest domain are named with that trust's data and not relied on |
| `TrustFacts.OtherDomainFromBytes` | crates/ad_resolver/src/trusts.rs:33-94 | "Another domain" implies that every forest trust's value was returned, parsed, and does not list the domain |
| `TrustFacts.WholeBaseExact` | crates/ad_resolver/src/resolver.rs:242-336 | The verdict that proves an account gone, if and only if the SID has a domain and the directory confirmed it as fully covered |
| `TrustFacts.OtherDomainNeedsEvidence` | crates/ad_resolver/src/resolver.rs:267-336 | "Another domain" from the directory's answers needs all trusts read and a forest-wide, root or single-domain view |
| `Trusted.SelectCrossDomainMemberships` | crates/ad_resolver/src/trusted.rs:73-100 | The loops with their seen sets compute kept, home-only and without-chain groups |
| `TrustedFacts.SelectionIsTheGlobalSet` | crates/ad_resolver/src/trusted.rs:73-100 | Kept and without-chain SIDs together are the domain controller's global-and-universal set, and are disjoint |
| `TrustedFacts.KeptExact` | crates/ad_resolver/src/trusted.rs:84-93 | Each membership is kept as often as it occurs, if its SID crosses, else not at all |
| `TrustedFacts.KeptKeepsOrder` | crates/ad_resolver/src/trusted.rs:84-93 | The kept memberships keep their order |
| `TrustedFacts.HomeOnlyExact` | crates/ad_resolver/src/trusted.rs:84-93 | Every group that does not cross is named exactly once |
| `Trusted.ApplySidFiltering` | crates/ad_resolver/src/trusted.rs:132-179 | The in-place edits of identity and memberships give the filtered token and the report |
| `TrustedFacts.FilterConserves` | crates/ad_resolver/src/trusted.rs:132-179 | The SIDs before are those remaining, those reported once each, and the histories of the dropped groups, which nothing reports |
| `TrustedFacts.FilterIsSilentUnless` | crates/ad_resolver/src/trusted.rs:166-177 | Every SID remains or is reported if and only if no dropped group has historical SIDs |
| `TrustedFacts.LostExactly` | crates/ad_resolver/src/trusted.rs:166-166 | The SIDs that go unreported are exactly those of the histories of dropped groups |
| `TrustedFacts.PassingSidIsLost` | crates/ad_resolver/src/trusted.rs:166-166 | A historical SID of a dropped group is neither kept nor reported even when the trust lets it through |
| `TrustedFacts.FilterIsExact` | crates/ad_resolver/src/trusted.rs:142-158 | Every remaining SID passes the trust, every reported one does not |
| `TrustedFacts.PassingKeepsOrder` | crates/ad_resolver/src/trusted.rs:160-175 | Filtering keeps the order of the values |
| `TrustedFacts.GroupsKeepOrder` | crates/ad_resolver/src/trusted.rs:166-166 | Filtering keeps the order of the groups and of the report |
| `TrustedFacts.FilterIsIdempotent` | crates/ad_resolver/src/trusted.rs:132-179 | A second run changes and reports nothing |
| `TrustedFacts.UnreadValuesKept` | crates/ad_resolver/src/trusted.rs:167-178 | Count minus length of a group's history is unchanged if and only if the count covers the removed values, hence whenever it is at least the length |
| `TrustedFacts.UnreadAccountValuesKept` | crates/ad_resolver/src/trusted.rs:159-164 | The same for the account's own history |
| `TrustedFacts.QuarantineIsTheDomain` | crates/ad_resolver/src/trusted.rs:139-152 | On a trust that is no forest trust only SIDs of the trusted domain pass |
| `TrustedFacts.SpliceIsReal` | crates/ad_resolver/src/trusted.rs:221-239 | A real home path to `via` continued by a real resource path from `via` is real, with names and nodes equally long and aligned |
| `TrustedFacts.SpliceNeedsTheSameNode` | crates/ad_resolver/src/trusted.rs:221-239 | When a splice of two real paths is real, exactly |
| `TrustedFacts.ChainThroughIsHonest` | crates/ad_resolver/src/trusted.rs:209-246 | The chained membership is the account's and its complete path is real |
| `TrustedAccount.ListVias` | crates/ad_resolver/src/trusted.rs:362-369 | The SIDs looked up in the resource domain: the account, then the first membership of each group |
| `TrustedAccount.VisitResourceDomain` | crates/ad_resolver/src/trusted.rs:370-381 | The visits in order, the first failure ending them |
| `TrustedAccount.ResolveAccount` | crates/ad_resolver/src/trusted.rs:287-442 | The three steps composed, on mutated identity and memberships, give the specified account |
| `TrustedAccountFacts.CrossingGroupsExact` | crates/ad_resolver/src/trusted.rs:319-357 | The home groups in the token are exactly those the domain controller hands over and the trust lets through |
| `TrustedAccountFacts.TokenIsExact` | crates/ad_resolver/src/trusted.rs:287-442 | A SID is in the token if and only if it crosses and passes, is a resource group reached through such a SID or the account, or is the one organization SID |
| `TrustedAccountFacts.PathsAreReal` | crates/ad_resolver/src/trusted.rs:362-408 | Every complete path of the token is a chain of real memberships from the account, across the trust |
| `TrustedAccountFacts.ReportsAreNamed` | crates/ad_resolver/src/trusted.rs:304-381 | Every SID the filtering reports is named, as filtered or as a gap; the stated gaps are exactly the unsettled home gaps and the resource gaps |
| `TrustedAccountFacts.NothingIsSilentExactly` | crates/ad_resolver/src/trusted.rs:350-360 | Every SID the account brings remains or is named, if and only if no home group that crosses and is dropped has historical SIDs |
| `TrustedAccountFacts.MigratedSidIsLost` | crates/ad_resolver/src/trusted.rs:166-177 | A concrete account whose group is dropped together with a historical SID of the trusted domain, which the trust lets through: neither kept nor named |
| `TrustedAccountFacts.SucceedsExactly` | crates/ad_resolver/src/trusted.rs:287-442 | Resolution succeeds exactly when every needed answer arrives |
| `TrustedAccountFacts.ViasExact` | crates/ad_resolver/src/trusted.rs:362-369 | Every group that passed is looked up once |
| `TrustedAccountFacts.PassesUpper` | crates/ad_resolver/src/trusted.rs:114-116 | The trust's decision does not depend on the case of the SID |
| `Principal.PushDiagnostics` | crates/ad_resolver/src/principal.rs:1318-1332 | Appends exactly the markers of scope and disabled state |
| `Principal.CountGroupHistories` | crates/core/src/model.rs:323-356 | The counting loop with its seen set gives the tally over the first membership of each group |
| `Principal.MembershipDiagnostics` | crates/ad_resolver/src/principal.rs:351-416 | The step-by-step list is the specified one, in order |
| `HistoryFacts.RepeatsDoNotCount` | crates/core/src/model.rs:327-334 | Repeating a group leaves the tally of histories unchanged |
| `HistoryFacts.TallyExact` | crates/core/src/model.rs:338-354 | Unread values are reported exactly when the first membership of some group states more than could be read, read ones exactly when one has any |
| `HistoryFacts.TallyForgetsOrderExactly` | crates/core/src/model.rs:323-356 | The tally does not depend on the order of the memberships if and only if those of each group state the same |
| `HistoryFacts.LaterUnreadValuesAreNotShown` | crates/core/src/model.rs:331-337 | Two memberships of one group, of which only the first one counts, in both orders |
| `HistoryFacts.WithoutPathShowsNoHistory` | crates/ad_resolver/src/trusted.rs:339-347 | A crossing group without a known chain states no history, so none of it shows in a diagnostic |
| `PrincipalFacts.DiagnosticsExact` | crates/ad_resolver/src/principal.rs:289-416 | A diagnostic is shown if and only if the fields of the resolution warrant it, through the flags and the list |
| `PrincipalFacts.OrphanedExact` | crates/ad_resolver/src/principal.rs:876-961 | For every behaviour of the backends, the scope is orphaned if and only if the directory has no object, no local authority names the SID, and its domain is the fully covered one |
| `PrincipalFacts.OrphanedMarkerExact` | crates/ad_resolver/src/principal.rs:1068-1145 | The marker the reader sees is shown if and only if that holds, or the local authority calls the account deleted and its answer is used, or the object found says so |
| `PrincipalFacts.ResolvedAndOrphaned` | crates/ad_resolver/src/sam.rs:739-751 | A concrete foreign security principal with resolved groups that is marked orphaned |
| `PrincipalFacts.OutsideAndOrphaned` | crates/ad_resolver/src/sam.rs:739-751 | A concrete SID named by the local authority that is marked orphaned without evidence from the directory |
| `PrincipalFacts.ScopeExact` | crates/ad_resolver/src/principal.rs:876-1099 | When the pipeline says lookup failed, inside or outside, exactly |
| `PrincipalFacts.TrustedAnswerIsReturned` | crates/ad_resolver/src/principal.rs:963-1033 | The trusted domain's answer is returned unchanged |
| `PrincipalFacts.OrphanedNeedsEvidence` | crates/ad_resolver/src/principal.rs:935-961 | Scope and marker in terms of the directory's own answers, through the whole classification |
| `PrincipalFacts.AskedAboutOwnAccounts` | crates/ad_resolver/src/principal.rs:963-1033 | A trusted domain is only asked about SIDs of its own, which its trust lets through, by a connection that serves it |
| `PrincipalFacts.UnresolvedIsSaid` | crates/ad_resolver/src/principal.rs:289-416 | A resolution built by the pipeline without resolved groups carries a failure, not-resolvable, outside-base or orphaned marker |
| `PrincipalFacts.MarkersAreExactUnlessDeleted` | crates/ad_resolver/src/principal.rs:289-416 | These markers appear exactly for unresolved groups, if and only if the groups are not resolved for an account that is called deleted |
| `PrincipalFacts.HitShowsEverything` | crates/ad_resolver/src/principal.rs:876-930 | All gaps and excluded groups of a hit are shown, and the limits of the two special binds exactly when they apply |
| `PrincipalFacts.CollectedMarkersAreShown` | crates/ad_resolver/src/principal.rs:1318-1332 | Markers collected while resolving all appear in the membership view |
| `PrincipalFacts.TrustedResolutionIsMarked` | crates/ad_resolver/src/trusted.rs:410-442 | A resolution in the trusted domain shows its filtered SIDs and gaps, and never claims to be unresolved |

## Left out

- LDAP, LSA, NetAPI and registry calls, connections, timeouts, paging, caching of identities and logging: their answers are parameters.
- Asynchrony: the steps of a resolution are taken in program order; the served domain SID may still change between two questions (`Principal.TrustedBackend`).
- The wording and positions of errors, gaps and labels: errors and gaps are tagged values that name DNs or SIDs.
- The original spelling of DNs: two spellings of one name count as one group in a gap.
- Unicode lower-casing of display names: a name carries the rank of its folded form; ASCII case of SIDs is modelled exactly.
- Well-formed UTF-8 and control characters are decided on bytes (section 4 of RFC 3629); names are not turned into text.
- ForestTrustInfo.ReadRecords: the SID text of a domain record is made when the record is complete, not after the SID field; it cannot fail in between.
- Trusts.ClassifyAgainstTrusts: `TrustView` and the domain root come from DN strings whose parsing (`resolver.rs` lines 1645 to 1673) is a parameter of `Trusts.Context`.
- SidNames.SidNameResolver.NewForTarget: `build_sid_name_map_for_target` and `identity_display` only combine this constructor, `Seed` and `Resolve` and have no model of their own.
- TrustedAccount.ResolveAccount: the answers of the two directories do not change while one account is resolved.
- Name, UPN and `sAMAccountName` inputs of the principal pipeline, and the membership report: they reuse the parts modelled here or add single branches.
- The primary group lookup, parsing of directory entries and identity classification: the entries are data.
- Rights arithmetic, DACL evaluation for files, User Account Control, expansion of local groups, DFS, command line, exports and user interface.
