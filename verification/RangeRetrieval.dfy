/** LDAP range retrieval (section 3.1.1.3.1.3.3 of MS-ADTS): completing an
    attribute whose values the server returns in chunks, against an arbitrary
    server. */
module RangeRetrieval {
  import opened Wrappers
  import opened Text

  type Value = string

  /** One attribute description with its values. The attributes of an entry
      are listed in whatever order their table happens to iterate. */
  datatype Attribute = Attribute(key: string, values: seq<Value>)

  /** What the server does with a request. */
  datatype Answer = Failed | NoEntry | Found(attrs: seq<Attribute>)

  datatype RangeError =
    | FirstChunkNotAtZero
    | TooManyRounds
    | EndOverflow
    | RequestFailed
    | EntryVanished
    | NoValues
    | WrongStart

  const MAX_RANGE_ROUNDS: nat := 1_000
  const U32_MAX: nat := 0xFFFF_FFFF

  // ---------- Range labels ----------

  datatype Range = Range(start: nat, end: Option<nat>)

  function SplitOnce(s: string, sep: char): Option<(string, string)> {
    if s == "" then None
    else if s[0] == sep then Some(("", s[1..]))
    else
      var rest :- SplitOnce(s[1..], sep);
      Some(([s[0]] + rest.0, rest.1))
  }

  /** `memberOf;range=0-1499` is (0, 1499), `memberOf;range=1500-*` is (1500, open). */
  function ParseRangeSuffix(key: string, attr: string): (r: Option<Range>)
    ensures r.Some? ==> r.value.start <= U32_MAX
    ensures r.Some? && r.value.end.Some? ==> r.value.start <= r.value.end.value <= U32_MAX
  {
    var prefix := attr + ";range=";
    if |key| < |prefix| || !EqIgnoreCase(key[..|prefix|], prefix) then None
    else
      var parts :- SplitOnce(key[|prefix|..], '-');
      var start :- ParseUint(parts.0, U32_MAX);
      if parts.1 == "*" then Some(Range(start, None))
      else
        var end :- ParseUint(parts.1, U32_MAX);
        if end < start then None else Some(Range(start, Some(end)))
  }

  datatype Ranged = Ranged(key: string, range: Range)

  /** The first attribute description that is a ranged form of `attr`. */
  function RangedKey(attrs: seq<Attribute>, attr: string): Option<Ranged> {
    if attrs == [] then None
    else if ParseRangeSuffix(attrs[0].key, attr).Some?
    then Some(Ranged(attrs[0].key, ParseRangeSuffix(attrs[0].key, attr).value))
    else RangedKey(attrs[1..], attr)
  }

  function Lookup(attrs: seq<Attribute>, key: string): seq<Value> {
    if attrs == [] then []
    else if attrs[0].key == key then attrs[0].values
    else Lookup(attrs[1..], key)
  }

  function Remove(attrs: seq<Attribute>, key: string): seq<Attribute> {
    if attrs == [] then []
    else (if attrs[0].key == key then [] else [attrs[0]]) + Remove(attrs[1..], key)
  }

  function Insert(attrs: seq<Attribute>, key: string, values: seq<Value>): seq<Attribute> {
    Remove(attrs, key) + [Attribute(key, values)]
  }

  // ---------- Specification of the client loop ----------

  /** A server: its answer to request number `round` for the values from `next` on. */
  type Server = (nat, nat) -> Answer

  datatype Chunk = Chunk(range: Range, values: seq<Value>)

  /** The chunk the server returns for a request, or what is wrong with its answer. */
  function Request(server: Server, attr: string, round: nat, next: nat): (r: Result<Chunk, RangeError>)
    ensures r.Ok? ==> r.value.range.start == next
    ensures r.Ok? && r.value.range.end.Some? ==> next <= r.value.range.end.value <= U32_MAX
  {
    match server(round, next)
    case Failed => Err(RequestFailed)
    case NoEntry => Err(EntryVanished)
    case Found(attrs) =>
      match RangedKey(attrs, attr)
      case None => Err(NoValues)
      case Some(Ranged(key, range)) =>
        RangedKeyInRange(attrs, attr);
        if range.start != next then Err(WrongStart) else Ok(Chunk(range, Lookup(attrs, key)))
  }

  lemma {:induction false} RangedKeyInRange(attrs: seq<Attribute>, attr: string)
    ensures var r := RangedKey(attrs, attr);
            r.Some? && r.value.range.end.Some? ==> r.value.range.start <= r.value.range.end.value <= U32_MAX
  {
    if attrs != [] {
      RangedKeyInRange(attrs[1..], attr);
    }
  }

  /** All values, given those read so far in `round` requests up to `end`. */
  function Fetch(server: Server, attr: string, values: seq<Value>, end: Option<nat>, round: nat): Result<seq<Value>, RangeError>
    decreases if round <= MAX_RANGE_ROUNDS then MAX_RANGE_ROUNDS + 1 - round else 0
  {
    if end.None? then Ok(values)
    else if round + 1 > MAX_RANGE_ROUNDS then Err(TooManyRounds)
    else if end.value + 1 > U32_MAX then Err(EndOverflow)
    else
      var chunk :- Request(server, attr, round, end.value + 1);
      Fetch(server, attr, values + chunk.values, chunk.range.end, round + 1)
  }

  /** The answer and the attributes afterwards. */
  function Complete(attrs: seq<Attribute>, attr: string, server: Server): (Result<bool, RangeError>, seq<Attribute>) {
    match RangedKey(attrs, attr)
    case None => (Ok(false), attrs)
    case Some(Ranged(key, range)) =>
      if range.start != 0 then (Err(FirstChunkNotAtZero), attrs)
      else
        match Fetch(server, attr, Lookup(attrs, key), range.end, 0)
        case Err(e) => (Err(e), Remove(attrs, key))
        case Ok(values) => (Ok(true), Insert(Remove(attrs, key), attr, values))
  }

  class Entry {
    var attrs: seq<Attribute>

    constructor (attrs: seq<Attribute>)
      ensures this.attrs == attrs
    {
      this.attrs := attrs;
    }
  }

  /** `sent` counts the requests that went out. */
  method CompleteRangedAttribute(entry: Entry, attr: string, server: Server)
    returns (r: Result<bool, RangeError>, sent: nat)
    modifies entry
    ensures (r, entry.attrs) == Complete(old(entry.attrs), attr, server)
    ensures sent <= MAX_RANGE_ROUNDS
  {
    sent := 0;
    var ranged := RangedKey(entry.attrs, attr);
    if ranged.None? {
      return Ok(false), sent;
    }
    if ranged.value.range.start != 0 {
      return Err(FirstChunkNotAtZero), sent;
    }
    var values := Lookup(entry.attrs, ranged.value.key);
    entry.attrs := Remove(entry.attrs, ranged.value.key);
    var end: Option<nat> := ranged.value.range.end;
    var rounds: nat := 0;
    ghost var outcome := Fetch(server, attr, values, end, 0);
    while end.Some?
      invariant outcome == Fetch(server, attr, values, end, rounds)
      invariant sent == rounds <= MAX_RANGE_ROUNDS
      invariant entry.attrs == Remove(old(entry.attrs), ranged.value.key)
      decreases MAX_RANGE_ROUNDS + 1 - rounds
    {
      rounds := rounds + 1;
      if rounds > MAX_RANGE_ROUNDS {
        return Err(TooManyRounds), sent;
      }
      if end.value + 1 > U32_MAX {
        return Err(EndOverflow), sent;
      }
      var next := end.value + 1;
      var chunk := Request(server, attr, rounds - 1, next);
      sent := sent + 1;
      if chunk.Err? {
        return Err(chunk.error), sent;
      }
      values := values + chunk.value.values;
      end := chunk.value.range.end;
    }
    entry.attrs := Insert(entry.attrs, attr, values);
    r := Ok(true);
  }

  // ---------- What success means ----------

  /** The chunks follow each other from `start` to the open end. */
  predicate Tile(chunks: seq<Chunk>, start: nat) {
    && chunks != []
    && chunks[0].range.start == start
    && (if |chunks| == 1 then chunks[0].range.end.None?
        else
          && chunks[0].range.end.Some? && start <= chunks[0].range.end.value < U32_MAX
          && Tile(chunks[1..], chunks[0].range.end.value + 1))
  }

  /** The chunks after the first are the server's answers to the requests the
      client sends. */
  predicate Answers(server: Server, attr: string, chunks: seq<Chunk>, round: nat) {
    |chunks| >= 2 ==>
      && chunks[0].range.end.Some?
      && Request(server, attr, round, chunks[0].range.end.value + 1) == Ok(chunks[1])
      && Answers(server, attr, chunks[1..], round + 1)
  }

  function Concat(chunks: seq<Chunk>): seq<Value> {
    if chunks == [] then [] else chunks[0].values + Concat(chunks[1..])
  }

  /** Success comes from a chain of answers without gap or overlap. */
  lemma {:induction false} FetchTiles(server: Server, attr: string, first: Chunk, values: seq<Value>, round: nat) returns (chunks: seq<Chunk>)
    requires first.range.end.Some? ==> first.range.start <= first.range.end.value
    requires Fetch(server, attr, values + first.values, first.range.end, round).Ok?
    requires round <= MAX_RANGE_ROUNDS
    ensures Tile(chunks, first.range.start) && Answers(server, attr, chunks, round) && chunks[0] == first
    ensures Fetch(server, attr, values + first.values, first.range.end, round).value == values + Concat(chunks)
    ensures round + |chunks| - 1 <= MAX_RANGE_ROUNDS
    decreases MAX_RANGE_ROUNDS - round
  {
    if first.range.end.None? {
      chunks := [first];
      assert Concat(chunks[1..]) == [] && first.values + [] == first.values;
    } else {
      var chunk := Request(server, attr, round, first.range.end.value + 1).value;
      var rest := FetchTiles(server, attr, chunk, values + first.values, round + 1);
      chunks := [first] + rest;
      assert chunks[1..] == rest;
      assert values + first.values + Concat(rest) == values + (first.values + Concat(rest));
    }
  }

  /** A chain of answers within the round limit leads to success. */
  lemma {:induction false} TilesFetch(server: Server, attr: string, chunks: seq<Chunk>, values: seq<Value>, start: nat, round: nat)
    requires Tile(chunks, start) && Answers(server, attr, chunks, round)
    requires round + |chunks| - 1 <= MAX_RANGE_ROUNDS
    ensures Fetch(server, attr, values + chunks[0].values, chunks[0].range.end, round) == Ok(values + Concat(chunks))
    decreases |chunks|
  {
    if |chunks| == 1 {
      assert Concat(chunks[1..]) == [] && chunks[0].values + [] == chunks[0].values;
    } else {
      TilesFetch(server, attr, chunks[1..], values + chunks[0].values, chunks[0].range.end.value + 1, round + 1);
      assert values + chunks[0].values + Concat(chunks[1..]) == values + (chunks[0].values + Concat(chunks[1..]));
    }
  }

  /** The chunks of a successful completion. */
  ghost predicate Completion(attrs: seq<Attribute>, attr: string, server: Server, chunks: seq<Chunk>) {
    var ranged := RangedKey(attrs, attr);
    && ranged.Some?
    && Tile(chunks, 0) && Answers(server, attr, chunks, 0) && |chunks| <= MAX_RANGE_ROUNDS + 1
    && chunks[0] == Chunk(ranged.value.range, Lookup(attrs, ranged.value.key))
  }

  lemma SuccessTiles(attrs: seq<Attribute>, attr: string, server: Server) returns (chunks: seq<Chunk>)
    requires Complete(attrs, attr, server).0 == Ok(true)
    ensures Completion(attrs, attr, server, chunks)
    ensures Complete(attrs, attr, server).1 == Insert(Remove(attrs, RangedKey(attrs, attr).value.key), attr, Concat(chunks))
  {
    var ranged := RangedKey(attrs, attr).value;
    var first := Chunk(ranged.range, Lookup(attrs, ranged.key));
    RangedKeyInRange(attrs, attr);
    assert [] + first.values == first.values;
    chunks := FetchTiles(server, attr, first, [], 0);
    assert [] + Concat(chunks) == Concat(chunks);
  }

  lemma TilesSucceed(attrs: seq<Attribute>, attr: string, server: Server, chunks: seq<Chunk>)
    requires Completion(attrs, attr, server, chunks)
    ensures Complete(attrs, attr, server).0 == Ok(true)
    ensures Complete(attrs, attr, server).1 == Insert(Remove(attrs, RangedKey(attrs, attr).value.key), attr, Concat(chunks))
  {
    TilesFetch(server, attr, chunks, [], 0, 0);
    assert [] + chunks[0].values == chunks[0].values && [] + Concat(chunks) == Concat(chunks);
  }

  /** For any server, completion succeeds exactly when the first chunk and at
      most 1,000 answers tile the range from 0 to the end without gap or
      overlap. Every other behaviour of the server is an error or leaves an
      attribute that was never ranged. */
  lemma SuccessIffTiled(attrs: seq<Attribute>, attr: string, server: Server)
    ensures Complete(attrs, attr, server).0 == Ok(true) <==> exists chunks :: Completion(attrs, attr, server, chunks)
    ensures Complete(attrs, attr, server).0 == Ok(false) <==> RangedKey(attrs, attr).None?
  {
    if Complete(attrs, attr, server).0 == Ok(true) {
      var chunks := SuccessTiles(attrs, attr, server);
    }
    forall chunks | Completion(attrs, attr, server, chunks) ensures Complete(attrs, attr, server).0 == Ok(true) {
      TilesSucceed(attrs, attr, server, chunks);
    }
  }

  // ---------- Truthful labels ----------

  /** The chunk holds the values its label names. */
  predicate Truthful(all: seq<Value>, c: Chunk) {
    match c.range.end
    case Some(end) => c.range.start <= end < |all| && c.values == all[c.range.start..end + 1]
    case None => c.range.start <= |all| && c.values == all[c.range.start..]
  }

  lemma {:induction false} TiledValues(all: seq<Value>, chunks: seq<Chunk>, start: nat)
    requires Tile(chunks, start) && forall c :: c in chunks ==> Truthful(all, c)
    ensures start <= |all| && Concat(chunks) == all[start..]
  {
    assert chunks[0] in chunks && Truthful(all, chunks[0]);
    if |chunks| == 1 {
      assert Concat(chunks[1..]) == [];
    } else {
      var end := chunks[0].range.end.value;
      TiledValues(all, chunks[1..], end + 1);
      assert Concat(chunks) == chunks[0].values + Concat(chunks[1..]);
      assert chunks[0].values == all[start..end + 1];
      hide Concat, Truthful, Tile;
      assert all[start..] == all[start..end + 1] + all[end + 1..];
    }
  }

  lemma {:induction false} LookupRemoved(attrs: seq<Attribute>, key: string, values: seq<Value>)
    ensures Lookup(Remove(attrs, key) + [Attribute(key, values)], key) == values
  {
    if attrs != [] {
      LookupRemoved(attrs[1..], key, values);
      var rest := Remove(attrs[1..], key) + [Attribute(key, values)];
      if attrs[0].key != key {
        assert (Remove(attrs, key) + [Attribute(key, values)])[1..] == rest;
      } else {
        assert Remove(attrs, key) + [Attribute(key, values)] == rest;
      }
    }
  }

  /** A list is never shortened: when the labels are truthful, success leaves
      the whole value list under the plain attribute name. */
  lemma NeverShortened(attrs: seq<Attribute>, attr: string, server: Server, all: seq<Value>)
    requires Complete(attrs, attr, server).0 == Ok(true)
    requires Truthful(all, Chunk(RangedKey(attrs, attr).value.range, Lookup(attrs, RangedKey(attrs, attr).value.key)))
    requires forall round, next :: Request(server, attr, round, next).Ok? ==> Truthful(all, Request(server, attr, round, next).value)
    ensures Lookup(Complete(attrs, attr, server).1, attr) == all
  {
    var chunks := SuccessTiles(attrs, attr, server);
    AnswersTruthful(all, server, attr, chunks, 0);
    TiledValues(all, chunks, 0);
    LookupRemoved(Remove(attrs, RangedKey(attrs, attr).value.key), attr, Concat(chunks));
  }

  lemma {:induction false} AnswersTruthful(all: seq<Value>, server: Server, attr: string, chunks: seq<Chunk>, round: nat)
    requires chunks != [] && Answers(server, attr, chunks, round) && Truthful(all, chunks[0])
    requires forall r, next :: Request(server, attr, r, next).Ok? ==> Truthful(all, Request(server, attr, r, next).value)
    ensures forall c :: c in chunks ==> Truthful(all, c)
  {
    if |chunks| >= 2 {
      assert Truthful(all, chunks[1]);
      AnswersTruthful(all, server, attr, chunks[1..], round + 1);
      assert chunks == [chunks[0]] + chunks[1..];
    }
  }

  /** The end of each further chunk lies behind the end of the one before, in
      every run as far as it went, whether it completes or fails later. */
  lemma {:induction false} EndsIncrease(server: Server, attr: string, chunks: seq<Chunk>, round: nat, i: nat)
    requires Answers(server, attr, chunks, round) && i + 1 < |chunks|
    ensures chunks[i].range.end.Some?
    ensures chunks[i + 1].range.start == chunks[i].range.end.value + 1
    ensures chunks[i + 1].range.end.Some? ==> chunks[i].range.end.value < chunks[i + 1].range.end.value
  {
    if i > 0 {
      EndsIncrease(server, attr, chunks[1..], round + 1, i - 1);
    }
  }

  // ---------- A paging server ----------

  function Label(attr: string, range: Range): string {
    attr + ";range=" + Decimal(range.start) + "-" + if range.end.Some? then Decimal(range.end.value) else "*"
  }

  lemma {:induction false} SplitOnceAt(left: string, right: string, sep: char)
    requires sep !in left
    ensures SplitOnce(left + [sep] + right, sep) == Some((left, right))
  {
    var s := left + [sep] + right;
    if left == "" {
      assert s[1..] == right;
    } else {
      SplitOnceAt(left[1..], right, sep);
      assert s[1..] == left[1..] + [sep] + right;
      assert left == [left[0]] + left[1..];
    }
  }

  /** A label is read back unless its end lies before its start. */
  lemma LabelRoundTrip(attr: string, range: Range)
    requires range.start <= U32_MAX && (range.end.Some? ==> range.end.value <= U32_MAX)
    ensures ParseRangeSuffix(Label(attr, range), attr)
            == if range.end.Some? && range.end.value < range.start then None else Some(range)
  {
    var prefix := attr + ";range=";
    var key := Label(attr, range);
    var tail := if range.end.Some? then Decimal(range.end.value) else "*";
    assert key[..|prefix|] == prefix && key[|prefix|..] == Decimal(range.start) + "-" + tail;
    forall i | 0 <= i < |Decimal(range.start)| ensures Decimal(range.start)[i] != '-' {
      assert IsDigit(Decimal(range.start)[i]);
    }
    SplitOnceAt(Decimal(range.start), tail, '-');
    ParseDecimal(range.start, U32_MAX);
    if range.end.Some? {
      ParseDecimal(range.end.value, U32_MAX);
      assert IsDigit(tail[0]);
    }
  }

  /** The page of at most `page` values from `next` on, as a directory server returns it. */
  function Page(all: seq<Value>, page: nat, next: nat): Chunk
    requires next <= |all|
  {
    if next + page >= |all| then Chunk(Range(next, None), all[next..])
    else if page == 0 then Chunk(Range(next, None), [])
    else Chunk(Range(next, Some(next + page - 1)), all[next..next + page])
  }

  function Pager(all: seq<Value>, page: nat, attr: string): Server {
    (round: nat, next: nat) =>
      if next > |all| then Failed
      else Found([Attribute(Label(attr, Page(all, page, next).range), Page(all, page, next).values)])
  }

  lemma PagerAnswers(all: seq<Value>, page: nat, attr: string, round: nat, next: nat)
    requires page > 0 && next <= |all| <= U32_MAX
    ensures Request(Pager(all, page, attr), attr, round, next) == Ok(Page(all, page, next))
    ensures Truthful(all, Page(all, page, next))
  {
    LabelRoundTrip(attr, Page(all, page, next).range);
  }

  lemma OnePage(page: nat, left: nat)
    requires left > 0
    ensures page * left == page + page * (left - 1)
  {
  }

  /** One round: the page from `next` on, then the rounds after it. */
  lemma PagerRound(all: seq<Value>, page: nat, attr: string, next: nat, round: nat)
    requires page > 0 && 0 < next < |all| <= U32_MAX && round < MAX_RANGE_ROUNDS
    ensures Fetch(Pager(all, page, attr), attr, all[..next], Some(next - 1), round)
         == if next + page >= |all| then Ok(all)
            else Fetch(Pager(all, page, attr), attr, all[..next + page], Some(next + page - 1), round + 1)
  {
    PagerAnswers(all, page, attr, round, next);
    hide Request, Pager;
    if next + page >= |all| {
      assert all[..next] + all[next..] == all;
    } else {
      assert all[..next] + all[next..next + page] == all[..next + page];
    }
  }

  lemma {:induction false} PagerFetches(all: seq<Value>, page: nat, attr: string, next: nat, round: nat, left: nat)
    requires page > 0 && 0 < next < |all| <= U32_MAX
    requires |all| <= next + page * left && round + left == MAX_RANGE_ROUNDS && left > 0
    ensures Fetch(Pager(all, page, attr), attr, all[..next], Some(next - 1), round) == Ok(all)
    decreases left
  {
    hide Fetch, Pager;
    PagerRound(all, page, attr, next, round);
    OnePage(page, left);
    if next + page < |all| {
      assert left - 1 > 0;
      PagerFetches(all, page, attr, next + page, round + 1, left - 1);
    }
  }

  /** Against a server that pages truthfully, every list that fits into the
      first page and 1,000 more is completed. */
  lemma PagedListIsCompleted(all: seq<Value>, page: nat, attr: string)
    requires 0 < page < |all| <= U32_MAX && |all| <= page + page * MAX_RANGE_ROUNDS
    ensures var first := Attribute(Label(attr, Page(all, page, 0).range), Page(all, page, 0).values);
            var done := Complete([first], attr, Pager(all, page, attr));
            done.0 == Ok(true) && Lookup(done.1, attr) == all
  {
    var first := Attribute(Label(attr, Page(all, page, 0).range), Page(all, page, 0).values);
    LabelRoundTrip(attr, Page(all, page, 0).range);
    assert RangedKey([first], attr) == Some(Ranged(first.key, Page(all, page, 0).range));
    assert all[0..page] == all[..page];
    PagerFetches(all, page, attr, page, 0, MAX_RANGE_ROUNDS);
    hide Fetch, Pager, Label, RangedKey;
    LookupRemoved(Remove([first], first.key), attr, all);
  }
}
