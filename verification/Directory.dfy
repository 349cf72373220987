/** Directory data: the entries a domain controller returns and the
    membership records the resolver builds from them.

    A distinguished name is its lower-cased form, represented by its rank
    among all such forms: only equality and order of lower-cased names decide
    anything. A display name carries the rank of its lower-cased form; rank 0
    is the empty name. */
module Directory {
  import opened Wrappers
  import opened SortedSets

  type Dn = nat
  type Sid = string

  datatype Name = Name(text: string, fold: nat)

  /** A directory entry as far as membership assembly reads it. `sid` is
      `None` when `objectSid` is missing or malformed, `groupType` when that
      attribute is missing or not a number. `historyCount` is the number of
      `sIDHistory` values, `history` those that could be parsed. */
  datatype RawEntry = RawEntry(
    dn: Dn,
    sid: Option<Sid>,
    name: Option<Name>,
    memberOf: seq<Dn>,
    groupType: Option<int>,
    historyCount: nat,
    history: seq<Sid>)

  /** One group of the principal's membership closure. */
  datatype ClosureGroup = ClosureGroup(
    sid: Sid,
    name: Option<Name>,
    parents: seq<Dn>,
    security: Option<bool>,
    historyCount: nat,
    history: seq<Sid>)

  type Closure = map<Dn, ClosureGroup>

  datatype PathSource = PrimaryGroup | DomainGroup | LdapMatchingRule | LocalGroup | TrustedDomainLogon

  datatype MembershipHop = MembershipHop(sid: Sid, name: Option<Name>)

  datatype MembershipPath = MembershipPath(
    nodes: seq<Sid>,
    names: seq<Option<Name>>,
    source: PathSource,
    complete: bool,
    alsoVia: seq<MembershipHop>)

  datatype GroupMembership = GroupMembership(
    memberSid: Sid,
    groupSid: Sid,
    direct: bool,
    groupName: Option<Name>,
    path: Option<MembershipPath>,
    historyCount: nat,
    history: seq<Sid>)

  /** Lower-cased, sorted and de-duplicated `memberOf` values. */
  function SortedMemberOf(e: RawEntry): seq<Dn> {
    SortedSeq(ToSet(e.memberOf))
  }

  /** Bit 31 of `groupType` in two's complement. */
  function GroupIsSecurity(e: RawEntry): Option<bool> {
    if e.groupType.None? then None
    else Some(e.groupType.value / 0x8000_0000 % 2 == 1)
  }
}
