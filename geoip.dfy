/**
 * The IP-to-city lookup of python/chapter-5-3.py. Block rows are loaded into the "ip2cityid:"
 * sorted set (member "<city id>_<row number>", score = first address of the block), city rows into
 * the "cityid2city:" hash, and an address is resolved to the block with the greatest start at or
 * below it. CSV reading and JSON encoding are left out: a row is a sequence of fields, and a city
 * record is stored as the triple the JSON list holds.
 */
module GeoIp {
  import opened Common
  import opened Text
  import opened Lists
  import ZSets

  // ---------------------------------------------------------------------------------------------
  // ip_to_score

  /** `score = score * 256 + part` folded from the left over the parts. */
  function Fold256(parts: seq<int>): int
    decreases |parts|
  {
    if parts == [] then 0 else Fold256(parts[..|parts| - 1]) * 256 + parts[|parts| - 1]
  }

  /** `int(v, 10)` for every part, or None when one of them raises ValueError. */
  function ParseAll(texts: seq<string>): Option<seq<int>>
    decreases |texts|
  {
    if texts == [] then Some([])
    else match (ParseAll(texts[..|texts| - 1]), ParseInt(texts[|texts| - 1]))
      case (Some(vs), Some(v)) => Some(vs + [v])
      case _ => None
  }

  /** ip_to_score as a value: None when it raises. */
  function IpScore(ip: string): Option<int> {
    match ParseAll(Split(ip, '.'))
    case None => None
    case Some(vs) => Some(Fold256(vs))
  }

  lemma {:induction false} ParseAllFails(texts: seq<string>, i: nat)
    requires i < |texts| && ParseInt(texts[i]).None?
    ensures ParseAll(texts) == None
    decreases |texts|
  {
    if i < |texts| - 1 {
      ParseAllFails(texts[..|texts| - 1], i);
    }
  }

  /** The accumulator loop of ip_to_score. */
  method IpToScore(ip: string) returns (r: Option<int>)
    ensures r == IpScore(ip)
  {
    var parts := Split(ip, '.');
    var score := 0;
    ghost var values: seq<int> := [];
    var i := 0;
    while i < |parts|
      invariant 0 <= i <= |parts|
      invariant ParseAll(parts[..i]) == Some(values) && score == Fold256(values)
    {
      match ParseInt(parts[i]) {
        case None =>
          ParseAllFails(parts, i);
          return None;
        case Some(v) =>
          assert parts[..i + 1][..i] == parts[..i];
          score := score * 256 + v;
          values := values + [v];
      }
      i := i + 1;
    }
    assert parts[..i] == parts;
    return Some(score);
  }

  /** The dotted-quad text of four numbers. */
  function QuadText(a: nat, b: nat, c: nat, d: nat): string {
    Dec(a) + "." + (Dec(b) + "." + (Dec(c) + "." + Dec(d)))
  }

  /** The value ip_to_score gives a dotted quad. */
  function QuadValue(a: int, b: int, c: int, d: int): int {
    a * 0x100_0000 + b * 0x1_0000 + c * 0x100 + d
  }

  lemma NoDotInDecimal(n: nat)
    ensures '.' !in Dec(n) && '_' !in Dec(n) && 'i' !in Dec(n) && 'I' !in Dec(n)
  {
    DecRoundTrip(n);
    assert forall k :: 0 <= k < |Dec(n)| ==> IsDigit(Dec(n)[k]);
  }

  /** Four pieces free of the separator, joined by it, split back into the four. */
  lemma SplitFour(w: string, x: string, y: string, z: string, c: char)
    requires c !in w && c !in x && c !in y && c !in z
    ensures Split(w + [c] + (x + [c] + (y + [c] + z)), c) == [w, x, y, z]
  {
    SplitNoSeparator(z, c);
    SplitJoin(y, c, z);
    SplitJoin(x, c, y + [c] + z);
    SplitJoin(w, c, x + [c] + (y + [c] + z));
  }

  /** A dotted quad splits into the four decimal texts. */
  lemma SplitQuad(a: nat, b: nat, c: nat, d: nat)
    ensures Split(QuadText(a, b, c, d), '.') == [Dec(a), Dec(b), Dec(c), Dec(d)]
  {
    NoDotInDecimal(a);
    NoDotInDecimal(b);
    NoDotInDecimal(c);
    NoDotInDecimal(d);
    SplitFour(Dec(a), Dec(b), Dec(c), Dec(d), '.');
  }

  lemma ParseAllSnoc(texts: seq<string>, t: string, vs: seq<int>, v: int)
    requires ParseAll(texts) == Some(vs) && ParseInt(t) == Some(v)
    ensures ParseAll(texts + [t]) == Some(vs + [v])
  {
    assert (texts + [t])[..|texts|] == texts;
  }

  lemma ParseQuad(a: nat, b: nat, c: nat, d: nat)
    ensures ParseAll([Dec(a), Dec(b), Dec(c), Dec(d)]) == Some([a, b, c, d])
  {
    DecRoundTrip(a);
    DecRoundTrip(b);
    DecRoundTrip(c);
    DecRoundTrip(d);
    ParseAllSnoc([], Dec(a), [], a);
    assert [] + [Dec(a)] == [Dec(a)] && [] + [a] == [a];
    ParseAllSnoc([Dec(a)], Dec(b), [a], b);
    assert [Dec(a)] + [Dec(b)] == [Dec(a), Dec(b)] && [a] + [b] == [a, b];
    ParseAllSnoc([Dec(a), Dec(b)], Dec(c), [a, b], c);
    assert [Dec(a), Dec(b)] + [Dec(c)] == [Dec(a), Dec(b), Dec(c)] && [a, b] + [c] == [a, b, c];
    ParseAllSnoc([Dec(a), Dec(b), Dec(c)], Dec(d), [a, b, c], d);
    assert [Dec(a), Dec(b), Dec(c)] + [Dec(d)] == [Dec(a), Dec(b), Dec(c), Dec(d)] && [a, b, c] + [d] == [a, b, c, d];
  }

  /** ip_to_score("a.b.c.d") is a·2^24 + b·2^16 + c·2^8 + d. */
  lemma QuadScore(a: nat, b: nat, c: nat, d: nat)
    ensures IpScore(QuadText(a, b, c, d)) == Some(QuadValue(a, b, c, d))
  {
    SplitQuad(a, b, c, d);
    ParseQuad(a, b, c, d);
    var v := [a, b, c, d];
    assert [a][..0] == [];
    assert Fold256([a]) == a;
    assert [a, b][..1] == [a];
    assert Fold256([a, b]) == a * 256 + b;
    assert [a, b, c][..2] == [a, b];
    assert Fold256([a, b, c]) == (a * 256 + b) * 256 + c;
    assert v[..3] == [a, b, c];
    assert Fold256(v) == ((a * 256 + b) * 256 + c) * 256 + d;
  }

  /** One base-256 digit: comparing x·256 + y with u·256 + v compares x with u first. */
  lemma Digit256(x: int, y: int, u: int, v: int)
    requires 0 <= y < 256 && 0 <= v < 256
    ensures x * 256 + y < u * 256 + v <==> x < u || (x == u && y < v)
    ensures x * 256 + y == u * 256 + v <==> x == u && y == v
  {
  }

  /** For octets, the score is a 32-bit value, and it orders addresses as their octets do. */
  lemma QuadOrder(a: int, b: int, c: int, d: int, a': int, b': int, c': int, d': int)
    requires 0 <= a < 256 && 0 <= b < 256 && 0 <= c < 256 && 0 <= d < 256
    requires 0 <= a' < 256 && 0 <= b' < 256 && 0 <= c' < 256 && 0 <= d' < 256
    ensures 0 <= QuadValue(a, b, c, d) < 0x1_0000_0000
    ensures QuadValue(a, b, c, d) == QuadValue(a', b', c', d') <==> a == a' && b == b' && c == c' && d == d'
    ensures QuadValue(a, b, c, d) < QuadValue(a', b', c', d') <==>
      a < a' || (a == a' && (b < b' || (b == b' && (c < c' || (c == c' && d < d')))))
  {
    assert QuadValue(a, b, c, d) == ((a * 256 + b) * 256 + c) * 256 + d;
    assert QuadValue(a', b', c', d') == ((a' * 256 + b') * 256 + c') * 256 + d';
    Digit256(a, b, a', b');
    Digit256(a * 256 + b, c, a' * 256 + b', c');
    Digit256((a * 256 + b) * 256 + c, d, (a' * 256 + b') * 256 + c', d');
  }

  // ---------------------------------------------------------------------------------------------
  // import_ips_to_redis

  /** What one CSV row of the blocks file does. */
  datatype RowStep =
    | Skip                              // `continue`
    | Add(member: string, score: int)   // ZADD ip2cityid: member score
    | Raise                             // ValueError or IndexError: the import stops

  /** `row[0] if row else ''`. */
  function StartField(row: seq<string>): string {
    if row == [] then "" else row[0]
  }

  /** `row[2] + '_' + str(count)`: the city id tagged with the row number. */
  function BlockMember(cityId: string, count: nat): string {
    cityId + "_" + Dec(count)
  }

  /** The loop body of import_ips_to_redis for row number `count`. */
  function ClassifyRow(row: seq<string>, count: nat): RowStep {
    var start := StartField(row);
    if 'i' in Lower(start) then Skip
    else if '.' in start then
      match IpScore(start)
      case None => Raise
      case Some(s) => if |row| < 3 then Raise else Add(BlockMember(row[2], count), s)
    else if IsDigits(start) then
      if |row| < 3 then Raise else Add(BlockMember(row[2], count), DigitsValue(start))
    else Skip
  }

  /**
   * Which rows are skipped, which stop the import and which add a block: a first field with an
   * 'i' in any case (the header) or neither dotted nor all digits is skipped; a dotted field is
   * converted with ip_to_score, an all-digit one read as a number; the member is the city id
   * tagged with the row number.
   */
  lemma RowClassification(row: seq<string>, count: nat)
    ensures var start := StartField(row);
      ClassifyRow(row, count).Skip? <==> 'i' in Lower(start) || ('.' !in start && !IsDigits(start))
    ensures var start := StartField(row);
      ClassifyRow(row, count).Raise? <==>
        'i' !in Lower(start) && ('.' in start || IsDigits(start)) && (|row| < 3 || ('.' in start && IpScore(start).None?))
    ensures var start := StartField(row); var r := ClassifyRow(row, count);
      r.Add? ==> (|row| >= 3 && r.member == BlockMember(row[2], count) &&
        r.score == if '.' in start then IpScore(start).value else DigitsValue(start))
  {
  }

  /** A row whose first field is a dotted quad adds its block at the quad's score. */
  lemma DottedRow(a: nat, b: nat, c: nat, d: nat, rest: seq<string>, count: nat)
    requires |rest| >= 2
    ensures ClassifyRow([QuadText(a, b, c, d)] + rest, count) == Add(BlockMember(rest[1], count), QuadValue(a, b, c, d))
  {
    QuadScore(a, b, c, d);
    NoDotInDecimal(a);
    NoDotInDecimal(b);
    NoDotInDecimal(c);
    NoDotInDecimal(d);
    var t := QuadText(a, b, c, d);
    assert t[|Dec(a)|] == '.';
    NoLetterIAfterLower(t);
  }

  /** Lower-casing text with no 'i' or 'I' gives text with no 'i'. */
  lemma NoLetterIAfterLower(s: string)
    requires 'i' !in s && 'I' !in s
    ensures 'i' !in Lower(s)
  {
    forall k | 0 <= k < |s| ensures Lower(s)[k] != 'i' {
      assert s[k] != 'i' && s[k] != 'I';
    }
  }

  /** The text after the last '_' (all of `s` when it has none). */
  function AfterLast(s: string, c: char): string
    decreases |s|
  {
    if s == [] || s[|s| - 1] == c then [] else AfterLast(s[..|s| - 1], c) + [s[|s| - 1]]
  }

  lemma {:induction false} AfterLastJoin(x: string, c: char, y: string)
    requires c !in y
    ensures AfterLast(x + [c] + y, c) == y
    decreases |y|
  {
    if y != [] {
      var s := x + [c] + y;
      assert s[..|s| - 1] == x + [c] + y[..|y| - 1];
      AfterLastJoin(x, c, y[..|y| - 1]);
    } else {
      assert x + [c] + y == x + [c];
    }
  }

  /** Rows with different numbers get different members, whatever their city ids. */
  lemma BlockMemberDistinct(x: string, m: nat, y: string, n: nat)
    requires m != n
    ensures BlockMember(x, m) != BlockMember(y, n)
  {
    NoDotInDecimal(m);
    NoDotInDecimal(n);
    assert BlockMember(x, m) == x + ['_'] + Dec(m) && BlockMember(y, n) == y + ['_'] + Dec(n);
    AfterLastJoin(x, '_', Dec(m));
    AfterLastJoin(y, '_', Dec(n));
    DecRoundTrip(m);
    DecRoundTrip(n);
  }

  /** `partition('_')[0]` recovers the city id from a member when the id holds no '_'. */
  lemma CityIdRoundTrip(cityId: string, count: nat)
    requires '_' !in cityId
    ensures Before(BlockMember(cityId, count), '_') == cityId
  {
    PartitionJoin(cityId, '_', Dec(count));
    assert BlockMember(cityId, count) == cityId + ['_'] + Dec(count);
  }

  /** The step each row takes, the rows numbered from `count`. */
  function RowSteps(rows: seq<seq<string>>, count: nat): seq<RowStep> {
    seq(|rows|, k requires 0 <= k < |rows| => ClassifyRow(rows[k], count + k))
  }

  /** The blocks set after the steps, and whether the loop ran to the end (no step raised). */
  function ApplySteps(z: ZSets.ZSet, steps: seq<RowStep>): (ZSets.ZSet, bool)
    decreases |steps|
  {
    if steps == [] then (z, true)
    else match steps[0]
      case Skip => ApplySteps(z, steps[1..])
      case Add(m, s) => ApplySteps(ZSets.Add(z, m, s), steps[1..])
      case Raise => (z, false)
  }

  /** The blocks set after the rows from number `count` on, and whether the loop ran to the end. */
  function ImportBlocks(z: ZSets.ZSet, rows: seq<seq<string>>, count: nat): (ZSets.ZSet, bool) {
    ApplySteps(z, RowSteps(rows, count))
  }

  /** Applying the row steps one by one keeps the sorted set valid. */
  lemma {:induction false} StepsValid(z: ZSets.ZSet, steps: seq<RowStep>)
    requires ZSets.Valid(z)
    ensures ZSets.Valid(ApplySteps(z, steps).0)
    decreases |steps|
  {
    if steps != [] {
      match steps[0]
      case Skip => StepsValid(z, steps[1..]);
      case Add(m, s) =>
        ZSets.AddSpec(z, m, s);
        StepsValid(ZSets.Add(z, m, s), steps[1..]);
      case Raise =>
    }
  }

  /** Steps that never add `x` leave its score as it was. */
  lemma {:induction false} StepsKeep(z: ZSets.ZSet, steps: seq<RowStep>, x: string)
    requires forall k :: 0 <= k < |steps| && steps[k].Add? ==> steps[k].member != x
    ensures ZSets.Score(ApplySteps(z, steps).0, x) == ZSets.Score(z, x)
    decreases |steps|
  {
    if steps != [] {
      assert forall k :: 0 <= k < |steps| - 1 ==> steps[1..][k] == steps[k + 1];
      match steps[0]
      case Skip => StepsKeep(z, steps[1..], x);
      case Add(m, s) =>
        ZSets.AddAt(z, m, s, x);
        StepsKeep(ZSets.Add(z, m, s), steps[1..], x);
      case Raise =>
    }
  }

  /** In a run that completes, a member that no later step adds again keeps the score it was added with. */
  lemma {:induction false} StepsScore(z: ZSets.ZSet, steps: seq<RowStep>, j: nat)
    requires ApplySteps(z, steps).1 && j < |steps| && steps[j].Add?
    requires forall k :: j < k < |steps| && steps[k].Add? ==> steps[k].member != steps[j].member
    ensures ZSets.Score(ApplySteps(z, steps).0, steps[j].member) == Some(steps[j].score)
    decreases |steps|
  {
    var next := if steps[0].Add? then ZSets.Add(z, steps[0].member, steps[0].score) else z;
    assert forall k :: 0 <= k < |steps| - 1 ==> steps[1..][k] == steps[k + 1];
    if j == 0 {
      ZSets.AddAt(z, steps[0].member, steps[0].score, steps[0].member);
      StepsKeep(next, steps[1..], steps[0].member);
    } else {
      StepsScore(next, steps[1..], j - 1);
    }
  }

  /** A step that raises ends the run with the steps before it applied. */
  lemma {:induction false} StepsStop(z: ZSets.ZSet, steps: seq<RowStep>, j: nat)
    requires j < |steps| && steps[j].Raise?
    ensures ApplySteps(z, steps) == (ApplySteps(z, steps[..j]).0, false)
    decreases |steps|
  {
    if j > 0 {
      assert steps[1..][j - 1] == steps[j];
      assert steps[..j][1..] == steps[1..][..j - 1];
      match steps[0]
      case Skip => StepsStop(z, steps[1..], j - 1);
      case Add(m, s) => StepsStop(ZSets.Add(z, m, s), steps[1..], j - 1);
      case Raise =>
    }
  }

  /** Importing keeps the set in Redis order. */
  lemma ImportBlocksValid(z: ZSets.ZSet, rows: seq<seq<string>>, count: nat)
    requires ZSets.Valid(z)
    ensures ZSets.Valid(ImportBlocks(z, rows, count).0)
  {
    StepsValid(z, RowSteps(rows, count));
  }

  /** An added block's member is the row's city id tagged with the row number. */
  lemma AddedMember(row: seq<string>, count: nat)
    requires ClassifyRow(row, count).Add?
    ensures |row| >= 3 && ClassifyRow(row, count).member == BlockMember(row[2], count)
  {
  }

  /** Each step that adds a block adds its row's city id tagged with the row's number. */
  ghost predicate Tagged(steps: seq<RowStep>, rows: seq<seq<string>>, count: nat) {
    |steps| == |rows| &&
    forall k :: 0 <= k < |steps| && steps[k].Add? ==> |rows[k]| >= 3 && steps[k].member == BlockMember(rows[k][2], count + k)
  }

  lemma RowStepsTagged(rows: seq<seq<string>>, count: nat)
    ensures Tagged(RowSteps(rows, count), rows, count)
  {
    var steps := RowSteps(rows, count);
    forall k | 0 <= k < |steps| && steps[k].Add?
      ensures |rows[k]| >= 3 && steps[k].member == BlockMember(rows[k][2], count + k)
    {
      AddedMember(rows[k], count + k);
    }
  }

  /** Rows numbered from `count` on never touch a member tagged with an earlier number. */
  lemma ImportBlocksKeeps(z: ZSets.ZSet, rows: seq<seq<string>>, count: nat, x: string, k: nat)
    requires k < count
    ensures ZSets.Score(ImportBlocks(z, rows, count).0, BlockMember(x, k)) == ZSets.Score(z, BlockMember(x, k))
  {
    var steps := RowSteps(rows, count);
    RowStepsTagged(rows, count);
    forall i | 0 <= i < |steps| && steps[i].Add? ensures steps[i].member != BlockMember(x, k) {
      BlockMemberDistinct(x, k, rows[i][2], count + i);
    }
    StepsKeep(z, steps, BlockMember(x, k));
  }

  /** Tagged steps never add the same member twice. */
  lemma TaggedDistinct(steps: seq<RowStep>, rows: seq<seq<string>>, count: nat, j: nat)
    requires Tagged(steps, rows, count) && j < |steps| && steps[j].Add?
    ensures forall k :: j < k < |steps| && steps[k].Add? ==> steps[k].member != steps[j].member
  {
    forall k | j < k < |steps| && steps[k].Add? ensures steps[k].member != steps[j].member {
      BlockMemberDistinct(rows[k][2], count + k, rows[j][2], count + j);
    }
  }

  /**
   * A completed import holds every block row at its own score: no later row overwrites an
   * earlier one, because the row number makes each member unique.
   */
  lemma ImportBlocksScores(z: ZSets.ZSet, rows: seq<seq<string>>, count: nat, j: nat)
    requires ImportBlocks(z, rows, count).1 && j < |rows|
    requires ClassifyRow(rows[j], count + j).Add?
    ensures ZSets.Score(ImportBlocks(z, rows, count).0, ClassifyRow(rows[j], count + j).member)
      == Some(ClassifyRow(rows[j], count + j).score)
  {
    RowStepsTagged(rows, count);
    TaggedDistinct(RowSteps(rows, count), rows, count, j);
    StepsScore(z, RowSteps(rows, count), j);
  }

  /** A row that raises ends the import with the rows before it applied. */
  lemma ImportBlocksStops(z: ZSets.ZSet, rows: seq<seq<string>>, count: nat, j: nat)
    requires j < |rows| && ClassifyRow(rows[j], count + j).Raise?
    ensures !ImportBlocks(z, rows, count).1
    ensures ImportBlocks(z, rows, count) == (ImportBlocks(z, rows[..j], count).0, false)
  {
    var steps := RowSteps(rows, count);
    StepsStop(z, steps, j);
    assert RowSteps(rows[..j], count) == steps[..j];
  }

  // ---------------------------------------------------------------------------------------------
  // import_cities_to_redis

  /** The JSON list `[city, region, country]` stored per city id. */
  datatype City = City(city: string, region: string, country: string)

  /** `len(row) < 4 or not row[0].isdigit()` skips a row. */
  predicate CityRow(row: seq<string>) {
    |row| >= 4 && IsDigits(row[0])
  }

  /** The hash after the rows, applied in order. */
  function ImportCityRows(cities: map<string, City>, rows: seq<seq<string>>): map<string, City>
    decreases |rows|
  {
    if rows == [] then cities
    else
      var before := ImportCityRows(cities, rows[..|rows| - 1]);
      var row := rows[|rows| - 1];
      if CityRow(row) then before[row[0] := City(row[3], row[2], row[1])] else before
  }

  /**
   * The ids in the hash are the old ones and those of the qualifying rows; each id holds the last
   * qualifying row with that id, and an id no qualifying row names keeps its old record.
   */
  lemma ImportCityRowsSpec(cities: map<string, City>, rows: seq<seq<string>>)
    ensures forall id :: id in ImportCityRows(cities, rows) <==>
      id in cities || exists j :: 0 <= j < |rows| && CityRow(rows[j]) && rows[j][0] == id
    ensures forall j :: (0 <= j < |rows| && CityRow(rows[j]) &&
        forall k :: j < k < |rows| && CityRow(rows[k]) ==> rows[k][0] != rows[j][0]) ==>
      ImportCityRows(cities, rows)[rows[j][0]] == City(rows[j][3], rows[j][2], rows[j][1])
    ensures forall id :: id in cities && (forall j :: 0 <= j < |rows| && CityRow(rows[j]) ==> rows[j][0] != id) ==>
      ImportCityRows(cities, rows)[id] == cities[id]
  {
    ImportCityRowsKeys(cities, rows);
    ImportCityRowsLast(cities, rows);
    ImportCityRowsUntouched(cities, rows);
  }

  /** The ids in the hash after importing are the old ones and those of the qualifying rows. */
  lemma {:induction false} ImportCityRowsKeys(cities: map<string, City>, rows: seq<seq<string>>)
    ensures forall id :: id in ImportCityRows(cities, rows) <==>
      id in cities || exists j :: 0 <= j < |rows| && CityRow(rows[j]) && rows[j][0] == id
    decreases |rows|
  {
    if rows != [] {
      var init := rows[..|rows| - 1];
      ImportCityRowsKeys(cities, init);
      forall id ensures id in ImportCityRows(cities, rows) <==>
        id in cities || exists j :: 0 <= j < |rows| && CityRow(rows[j]) && rows[j][0] == id
      {
        if exists j :: 0 <= j < |rows| && CityRow(rows[j]) && rows[j][0] == id {
          var j :| 0 <= j < |rows| && CityRow(rows[j]) && rows[j][0] == id;
          if j < |rows| - 1 {
            assert init[j] == rows[j];
          }
        }
        if exists j :: 0 <= j < |init| && CityRow(init[j]) && init[j][0] == id {
          var j :| 0 <= j < |init| && CityRow(init[j]) && init[j][0] == id;
          assert rows[j] == init[j];
        }
      }
    }
  }

  /** An id holds the last qualifying row that names it. */
  lemma {:induction false} ImportCityRowsLast(cities: map<string, City>, rows: seq<seq<string>>)
    ensures forall j :: (0 <= j < |rows| && CityRow(rows[j]) &&
        forall k :: j < k < |rows| && CityRow(rows[k]) ==> rows[k][0] != rows[j][0]) ==>
      rows[j][0] in ImportCityRows(cities, rows) && ImportCityRows(cities, rows)[rows[j][0]] == City(rows[j][3], rows[j][2], rows[j][1])
    decreases |rows|
  {
    if rows != [] {
      var init := rows[..|rows| - 1];
      ImportCityRowsLast(cities, init);
      forall j | 0 <= j < |rows| && CityRow(rows[j]) &&
          (forall k :: j < k < |rows| && CityRow(rows[k]) ==> rows[k][0] != rows[j][0])
        ensures rows[j][0] in ImportCityRows(cities, rows) && ImportCityRows(cities, rows)[rows[j][0]] == City(rows[j][3], rows[j][2], rows[j][1])
      {
        if j < |rows| - 1 {
          assert init[j] == rows[j];
          forall k | j < k < |init| && CityRow(init[k]) ensures init[k][0] != init[j][0] {
            assert init[k] == rows[k];
          }
        }
      }
    }
  }

  /** An id that no qualifying row names keeps its old record. */
  lemma {:induction false} ImportCityRowsUntouched(cities: map<string, City>, rows: seq<seq<string>>)
    ensures forall id :: id in cities && (forall j :: 0 <= j < |rows| && CityRow(rows[j]) ==> rows[j][0] != id) ==>
      id in ImportCityRows(cities, rows) && ImportCityRows(cities, rows)[id] == cities[id]
    decreases |rows|
  {
    if rows != [] {
      var init := rows[..|rows| - 1];
      ImportCityRowsUntouched(cities, init);
      forall id | id in cities && (forall j :: 0 <= j < |rows| && CityRow(rows[j]) ==> rows[j][0] != id)
        ensures id in ImportCityRows(cities, rows) && ImportCityRows(cities, rows)[id] == cities[id]
      {
        forall j | 0 <= j < |init| && CityRow(init[j]) ensures init[j][0] != id {
          assert init[j] == rows[j];
        }
      }
    }
  }

  // ---------------------------------------------------------------------------------------------
  // Loading both files

  /** The two keys the importers fill: "ip2cityid:" and "cityid2city:". */
  class GeoDb {
    var blocks: ZSets.ZSet
    var cities: map<string, City>

    ghost predicate Valid()
      reads this
    {
      ZSets.Valid(blocks)
    }

    constructor ()
      ensures Valid() && blocks == [] && cities == map[]
    {
      blocks := [];
      cities := map[];
    }

    /** import_ips_to_redis: each block row is added as it is read; a row that raises stops the loop. */
    method ImportIps(rows: seq<seq<string>>) returns (completed: bool)
      requires Valid()
      modifies this
      ensures Valid()
      ensures (blocks, completed) == ImportBlocks(old(blocks), rows, 0)
      ensures cities == old(cities)
    {
      ImportBlocksValid(blocks, rows, 0);
      ghost var steps := RowSteps(rows, 0);
      var count := 0;
      while count < |rows|
        invariant 0 <= count <= |rows|
        invariant ZSets.Valid(blocks)
        invariant ImportBlocks(old(blocks), rows, 0) == ApplySteps(blocks, steps[count..])
        invariant cities == old(cities)
      {
        assert steps[count..][0] == ClassifyRow(rows[count], count) && steps[count..][1..] == steps[count + 1..];
        match ClassifyRow(rows[count], count) {
          case Skip =>
          case Add(m, s) =>
            ZSets.AddSpec(blocks, m, s);
            blocks := ZSets.Add(blocks, m, s);
          case Raise =>
            return false;
        }
        count := count + 1;
      }
      return true;
    }

    /** import_cities_to_redis: HSET cityid2city: id [city, region, country] for each qualifying row. */
    method ImportCities(rows: seq<seq<string>>)
      requires Valid()
      modifies this
      ensures Valid()
      ensures cities == ImportCityRows(old(cities), rows)
      ensures blocks == old(blocks)
    {
      var i := 0;
      while i < |rows|
        invariant 0 <= i <= |rows|
        invariant cities == ImportCityRows(old(cities), rows[..i])
        invariant blocks == old(blocks)
      {
        var row := rows[i];
        assert rows[..i + 1][..i] == rows[..i];
        if CityRow(row) {
          cities := cities[row[0] := City(row[3], row[2], row[1])];
        }
        i := i + 1;
      }
      assert rows[..i] == rows;
    }
  }

  // ---------------------------------------------------------------------------------------------
  // find_city_by_ip

  /** The argument of find_city_by_ip: a dotted string or an already converted score. */
  datatype Address = Dotted(text: string) | Numeric(score: int)

  /** What find_city_by_ip ends with. */
  datatype Lookup =
    | NoBlock                   // no block starts at or below the address: None
    | Located(city: City)       // the decoded city record
    | BadAddress                // ip_to_score raises ValueError
    | CityMissing(id: string)   // HGET gives None and json.loads raises

  function AddressScore(addr: Address): Option<int> {
    match addr
    case Dotted(text) => IpScore(text)
    case Numeric(n) => Some(n)
  }

  /** ZREVRANGEBYSCORE ip2cityid: score 0 start=0 num=1: the member found, if any. */
  function FoundBlock(blocks: ZSets.ZSet, score: int): Option<string> {
    var found := Take(ZSets.Reverse(ZSets.RangeByScore(blocks, 0, score)), 1);
    if found == [] then None else Some(found[0])
  }

  function Locate(blocks: ZSets.ZSet, cities: map<string, City>, addr: Address): Lookup {
    match AddressScore(addr)
    case None => BadAddress
    case Some(score) => LocateScore(blocks, cities, score)
  }

  /** The lookup once the address has its score. */
  function LocateScore(blocks: ZSets.ZSet, cities: map<string, City>, score: int): Lookup {
    match FoundBlock(blocks, score)
    case None => NoBlock
    case Some(member) =>
      var id := Before(member, '_');
      if id in cities then Located(cities[id]) else CityMissing(id)
  }

  /** The last entry of a score window of a set in Redis order comes after every other entry in it. */
  lemma WindowLast(z: ZSets.ZSet, lo: int, hi: int)
    requires ZSets.Valid(z) && ZSets.ScoreWindow(z, lo, hi) != []
    ensures var w := ZSets.ScoreWindow(z, lo, hi);
      forall f :: f in z && lo <= f.score <= hi ==> f == w[|w| - 1] || ZSets.Precedes(f, w[|w| - 1])
  {
    var w := ZSets.ScoreWindow(z, lo, hi);
    ZSets.ScoreWindowSpec(z, lo, hi);
    ZSets.ScoreWindowValid(z, lo, hi);
    forall f | f in z && lo <= f.score <= hi ensures f == w[|w| - 1] || ZSets.Precedes(f, w[|w| - 1]) {
      assert f in w;
      var k :| 0 <= k < |w| && w[k] == f;
      if k < |w| - 1 {
        assert ZSets.Precedes(w[k], w[|w| - 1]);
      }
    }
  }

  /**
   * find_city_by_ip's range query: nothing is found exactly when no block starts in [0, score];
   * otherwise the member found belongs to the block with the greatest start at or below the
   * score (the last one in Redis order among ties).
   */
  lemma FoundBlockSpec(blocks: ZSets.ZSet, score: int)
    requires ZSets.Valid(blocks)
    ensures FoundBlock(blocks, score).None? <==> forall e :: e in blocks ==> !(0 <= e.score <= score)
    ensures FoundBlock(blocks, score).Some? ==>
      exists e :: e in blocks && e.member == FoundBlock(blocks, score).value && 0 <= e.score <= score &&
        forall f :: f in blocks && 0 <= f.score <= score ==> f == e || ZSets.Precedes(f, e)
  {
    var w := ZSets.ScoreWindow(blocks, 0, score);
    ZSets.ScoreWindowSpec(blocks, 0, score);
    if w != [] {
      WindowLast(blocks, 0, score);
      var e := w[|w| - 1];
      assert e in w;
      assert FoundBlock(blocks, score) == Some(e.member);
    } else {
      forall e | e in blocks ensures !(0 <= e.score <= score) {
        if 0 <= e.score <= score {
          assert false;
        }
      }
    }
  }

  /**
   * find_city_by_ip end to end: a bad address raises; otherwise the answer is None exactly when
   * no block starts in [0, score], and else the record of the city id before the first '_' of
   * the greatest block's member.
   */
  lemma LocateSpec(blocks: ZSets.ZSet, cities: map<string, City>, addr: Address)
    requires ZSets.Valid(blocks)
    ensures Locate(blocks, cities, addr).BadAddress? <==> AddressScore(addr).None?
    ensures AddressScore(addr).Some? ==> var score := AddressScore(addr).value;
      (Locate(blocks, cities, addr).NoBlock? <==> forall e :: e in blocks ==> !(0 <= e.score <= score))
    ensures AddressScore(addr).Some? && !Locate(blocks, cities, addr).NoBlock? ==>
      var score := AddressScore(addr).value;
      exists e :: Greatest(blocks, score, e) &&
        var id := Before(e.member, '_');
        Locate(blocks, cities, addr) == if id in cities then Located(cities[id]) else CityMissing(id)
  {
    if AddressScore(addr).Some? {
      var score := AddressScore(addr).value;
      assert Locate(blocks, cities, addr) == LocateScore(blocks, cities, score);
      LocateNoBlock(blocks, cities, score);
      LocateFound(blocks, cities, score);
    }
  }

  /** Nothing is found exactly when no block starts in [0, score]. */
  lemma LocateNoBlock(blocks: ZSets.ZSet, cities: map<string, City>, score: int)
    requires ZSets.Valid(blocks)
    ensures LocateScore(blocks, cities, score).NoBlock? <==> forall e :: e in blocks ==> !(0 <= e.score <= score)
  {
    FoundBlockSpec(blocks, score);
  }

  /** When a block is found, the answer is the record of that block's city id. */
  lemma LocateFound(blocks: ZSets.ZSet, cities: map<string, City>, score: int)
    requires ZSets.Valid(blocks)
    ensures !LocateScore(blocks, cities, score).NoBlock? ==>
      exists e :: Greatest(blocks, score, e) &&
        var id := Before(e.member, '_');
        LocateScore(blocks, cities, score) == if id in cities then Located(cities[id]) else CityMissing(id)
  {
    if FoundBlock(blocks, score).Some? {
      var e := FoundEntry(blocks, score);
      var id := Before(e.member, '_');
      assert LocateScore(blocks, cities, score) == if id in cities then Located(cities[id]) else CityMissing(id);
    }
  }

  /** `e` is the last entry of `blocks`, in Redis order, that starts in [0, score]. */
  ghost predicate Greatest(blocks: ZSets.ZSet, score: int, e: ZSets.Entry) {
    && e in blocks && 0 <= e.score <= score
    && forall f :: f in blocks && 0 <= f.score <= score ==> f == e || ZSets.Precedes(f, e)
  }

  /** The entry whose member ZREVRANGEBYSCORE returns. */
  lemma FoundEntry(blocks: ZSets.ZSet, score: int) returns (e: ZSets.Entry)
    requires ZSets.Valid(blocks) && FoundBlock(blocks, score).Some?
    ensures Greatest(blocks, score, e) && e.member == FoundBlock(blocks, score).value
  {
    FoundBlockSpec(blocks, score);
    e :| e in blocks && e.member == FoundBlock(blocks, score).value && 0 <= e.score <= score &&
      forall f :: f in blocks && 0 <= f.score <= score ==> f == e || ZSets.Precedes(f, e);
  }

  /**
   * Importing a block row "a.b.c.d" for city id `cityId` (holding no '_') and that city's row, then
   * looking up the same address, finds that city.
   */
  lemma ImportThenLocate(a: nat, b: nat, c: nat, d: nat, cityId: string, city: City)
    requires '_' !in cityId && IsDigits(cityId)
    ensures var blocks := ImportBlocks([], [[QuadText(a, b, c, d), "", cityId]], 0);
      var cities := ImportCityRows(map[], [[cityId, city.country, city.region, city.city]]);
      blocks.1 && Locate(blocks.0, cities, Dotted(QuadText(a, b, c, d))) == Located(city)
  {
    var row := [QuadText(a, b, c, d), "", cityId];
    DottedRow(a, b, c, d, ["", cityId], 0);
    assert row == [QuadText(a, b, c, d)] + ["", cityId];
    var m := BlockMember(cityId, 0);
    var s := QuadValue(a, b, c, d);
    assert RowSteps([row], 0) == [Add(m, s)];
    assert ApplySteps([], [Add(m, s)]) == ApplySteps(ZSets.Add([], m, s), []);
    var z := ZSets.Add([], m, s);
    assert z == [ZSets.Entry(m, s)];
    QuadScore(a, b, c, d);
    assert ZSets.ScoreWindow(z, 0, s) == z;
    assert FoundBlock(z, s) == Some(m);
    CityIdRoundTrip(cityId, 0);
    var cityRow := [cityId, city.country, city.region, city.city];
    assert [cityRow][..0] == [];
  }
}
