/**
 * `Mapping`: researcher ids and names loaded from the lines of an "id,name"
 * file, with lookups both ways. Names are looked up by their normalised
 * form (trimmed and lowered); a normalised name may carry several ids, kept
 * in file order, while each id carries the trimmed name as written.
 * Opening and reading files is not modelled: the loader takes the lines,
 * and the graph check takes the vertex count read from the graph header.
 */
module ResearcherMapping {
  import opened Common
  import opened Text

  /** `nomeParaIds` and `idParaNome`. */
  datatype Mapping = Mapping(nameToIds: map<string, seq<int>>, idToName: map<int, string>)

  /** Why one line is refused. */
  datatype LineFault = NoComma | Incomplete | BadId(text: string) | NonPositiveId | BadName

  /** The exceptions of the constructor; line numbers count every line from 1, empty ones included. */
  datatype LoadError =
    | LineError(line: nat, fault: LineFault)
    | DuplicateId(id: int, line: nat)
    | NoResearchers
    | CountMismatch(vertices: nat, researchers: nat)

  /** The exceptions of the lookups. */
  datatype LookupError = NameNotFound(name: string) | MultipleIds(name: string) | IdNotFound(id: int)

  /** One accepted line: the id, the trimmed name, and its normalised key. */
  datatype Record = Record(id: int, name: string, key: string)

  const Empty := Mapping(map[], map[])

  /** The first comma of `s` at or after `i`, if any. */
  function FindComma(s: string, i: nat): (r: Option<nat>)
    requires i <= |s|
    ensures r.None? ==> forall k | i <= k < |s| :: s[k] != ','
    ensures r.Some? ==> i <= r.value < |s| && s[r.value] == ',' && forall k | i <= k < r.value :: s[k] != ','
    decreases |s| - i
  {
    if i == |s| then None else if s[i] == ',' then Some(i) else FindComma(s, i + 1)
  }

  /**
   * One non-empty line: split at the first comma, trim both sides, then
   * read the two fields.
   */
  function ParseLine(line: string): (r: Result<Record, LineFault>)
    ensures r.Ok? ==> r.value.id > 0 && r.value.name != "" && Trimmed(r.value.name)
    ensures r.Ok? ==> r.value.key == Normalize(r.value.name) && r.value.key != ""
  {
    match FindComma(line, 0)
    case None => Err(NoComma)
    case Some(d) => ParseFields(Trim(line[..d]), Trim(line[d + 1..]))
  }

  /**
   * The two trimmed fields: refuse an empty side, an id `stoi` cannot read,
   * an id not above 0, and an empty normalised name; otherwise the id, the
   * name and its key.
   */
  function ParseFields(idText: string, name: string): (r: Result<Record, LineFault>)
    ensures r.Ok? ==> r.value.id > 0 && r.value.name == name != "" && r.value.key == Normalize(name) != ""
  {
    if idText == "" || name == "" then Err(Incomplete)
    else match Stoi(idText)
      case None => Err(BadId(idText))
      case Some(id) =>
        if id <= 0 then Err(NonPositiveId)
        else
          var key := Normalize(name);
          if key == "" then Err(BadName) else Ok(Record(id, name, key))
  }

  /** The empty-key refusal cannot happen: a non-empty trimmed name normalises to a non-empty key. */
  lemma NoBadName(line: string)
    ensures ParseLine(line) != Err(BadName)
  {
    match FindComma(line, 0)
    case None =>
    case Some(d) =>
      var name := Trim(line[d + 1..]);
      NoBadField(Trim(line[..d]), name);
  }

  lemma NoBadField(idText: string, name: string)
    requires Trimmed(name)
    ensures ParseFields(idText, name) != Err(BadName)
  {
    TrimOfTrimmed(name);
    assert |Normalize(name)| == |name|;
  }

  /** The ids stored for a key, none if absent. */
  function IdsOf(m: Mapping, key: string): seq<int> {
    if key in m.nameToIds then m.nameToIds[key] else []
  }

  /** Recording a line: its id appended to its key's list, its name stored under its id. */
  function Add(m: Mapping, r: Record): Mapping {
    Mapping(m.nameToIds[r.key := IdsOf(m, r.key) + [r.id]], m.idToName[r.id := r.name])
  }

  /** What one line of the file contributes to the loop. */
  datatype LineOutcome = BlankLine | Researcher(rec: Record) | Faulty(fault: LineFault)

  /** Empty lines are skipped; any other line is parsed. */
  function Classify(line: string): (o: LineOutcome)
    ensures o.BlankLine? <==> line == ""
    ensures o.Researcher? ==> ParseLine(line) == Ok(o.rec)
    ensures o.Faulty? ==> ParseLine(line) == Err(o.fault)
  {
    if line == "" then BlankLine
    else match ParseLine(line)
      case Err(f) => Faulty(f)
      case Ok(rec) => Researcher(rec)
  }

  function Outcomes(lines: seq<string>): (os: seq<LineOutcome>)
    ensures |os| == |lines| && forall k | 0 <= k < |lines| :: os[k] == Classify(lines[k])
  {
    seq(|lines|, k requires 0 <= k < |lines| => Classify(lines[k]))
  }

  /**
   * The loading loop from line `i` (0-based, reported 1-based): a faulty
   * line or an id already present stops it; at the end, no researcher at
   * all is an error.
   */
  function LoadFrom(os: seq<LineOutcome>, i: nat, m: Mapping): (r: Result<Mapping, LoadError>)
    requires i <= |os|
    decreases |os| - i
  {
    if i == |os| then (if |m.idToName| == 0 then Err(NoResearchers) else Ok(m))
    else match os[i]
      case BlankLine => LoadFrom(os, i + 1, m)
      case Faulty(f) => Err(LineError(i + 1, f))
      case Researcher(rec) =>
        if rec.id in m.idToName then Err(DuplicateId(rec.id, i + 1))
        else LoadFrom(os, i + 1, Add(m, rec))
  }

  /** `carregarPesquisadores` over the lines of the file. */
  function Load(lines: seq<string>): Result<Mapping, LoadError> {
    LoadFrom(Outcomes(lines), 0, Empty)
  }

  /** The count check of `validarComGrafo`: the graph's vertex count must equal the number of researchers. */
  function CheckCount(m: Mapping, vertices: nat): (r: Result<Mapping, LoadError>)
    ensures r.Ok? <==> vertices == |m.idToName|
    ensures r.Ok? ==> r.value == m
    ensures r.Err? ==> r.error == CountMismatch(vertices, |m.idToName|)
  {
    if vertices != |m.idToName| then Err(CountMismatch(vertices, |m.idToName|)) else Ok(m)
  }

  /** The constructor: load, then check against the graph's vertex count. */
  function Construct(lines: seq<string>, vertices: nat): (r: Result<Mapping, LoadError>)
    ensures r.Ok? <==> Load(lines).Ok? && |Load(lines).value.idToName| == vertices
    ensures r.Ok? ==> r == Load(lines)
    ensures Load(lines).Err? ==> r == Load(lines)
  {
    match Load(lines)
    case Err(e) => Err(e)
    case Ok(m) => CheckCount(m, vertices)
  }

  // ---------------------------------------------------------------------
  // What loading computes
  // ---------------------------------------------------------------------

  /** No line from `i` on is faulty. */
  predicate AllParse(os: seq<LineOutcome>, i: nat)
    requires i <= |os|
  {
    forall k | i <= k < |os| :: !os[k].Faulty?
  }

  /** The records of the researcher lines from `i` on, in file order. */
  function Parsed(os: seq<LineOutcome>, i: nat): seq<Record>
    requires i <= |os|
    decreases |os| - i
  {
    if i == |os| then []
    else if os[i].Researcher? then [os[i].rec] + Parsed(os, i + 1)
    else Parsed(os, i + 1)
  }

  /** The number of non-empty lines from `i` on. */
  function NonEmptyLines(os: seq<LineOutcome>, i: nat): nat
    requires i <= |os|
    decreases |os| - i
  {
    if i == |os| then 0 else (if os[i].BlankLine? then 0 else 1) + NonEmptyLines(os, i + 1)
  }

  /** The records added one after the other. */
  function AddAll(m: Mapping, es: seq<Record>): Mapping
    decreases |es|
  {
    if |es| == 0 then m else AddAll(Add(m, es[0]), es[1..])
  }

  function Ids(es: seq<Record>): (r: seq<int>)
    ensures |r| == |es| && forall k | 0 <= k < |es| :: r[k] == es[k].id
  {
    seq(|es|, k requires 0 <= k < |es| => es[k].id)
  }

  /** The ids of `es` are distinct and none is in `m` already. */
  predicate Fresh(m: Mapping, es: seq<Record>) {
    Distinct(Ids(es)) && forall k | 0 <= k < |es| :: es[k].id !in m.idToName
  }

  /** The ids, in order, of the records with key `key`. */
  function KeyIds(es: seq<Record>, key: string): seq<int>
    decreases |es|
  {
    if |es| == 0 then []
    else (if es[0].key == key then [es[0].id] else []) + KeyIds(es[1..], key)
  }

  /** Freshness of a non-empty list splits into its head and its tail. */
  lemma FreshCons(m: Mapping, es: seq<Record>)
    requires |es| > 0
    ensures Fresh(m, es) <==> es[0].id !in m.idToName && Fresh(Add(m, es[0]), es[1..])
  {
    var rest := es[1..];
    var m' := Add(m, es[0]);
    assert Ids(rest) == Ids(es)[1..];
    if Fresh(m, es) {
      forall k | 0 <= k < |rest| ensures rest[k].id !in m'.idToName {
        assert Ids(es)[0] != Ids(es)[k + 1];
      }
    }
    if es[0].id !in m.idToName && Fresh(m', rest) {
      forall x, y | 0 <= x < y < |es| ensures Ids(es)[x] != Ids(es)[y] {
        if x > 0 {
          assert Ids(es)[x] == Ids(rest)[x - 1];
        }
        assert Ids(es)[y] == rest[y - 1].id;
      }
      forall k | 0 <= k < |es| ensures es[k].id !in m.idToName {
        if k > 0 {
          assert es[k] == rest[k - 1];
        }
      }
    }
  }

  /** Adding one new id grows the researcher count by one. */
  lemma AddCount(m: Mapping, r: Record)
    requires r.id !in m.idToName
    ensures |Add(m, r).idToName| == |m.idToName| + 1
  {
    assert Add(m, r).idToName.Keys == m.idToName.Keys + {r.id};
  }

  /**
   * Adding fresh records: each id gets its own name, the old ids keep theirs,
   * nothing else is added, and the count grows by the number of records.
   */
  lemma {:induction false} AddAllNames(m: Mapping, es: seq<Record>)
    requires Fresh(m, es)
    ensures forall k | 0 <= k < |es| :: es[k].id in AddAll(m, es).idToName && AddAll(m, es).idToName[es[k].id] == es[k].name
    ensures forall id | id in m.idToName :: id in AddAll(m, es).idToName && AddAll(m, es).idToName[id] == m.idToName[id]
    ensures forall id | id in AddAll(m, es).idToName :: id in m.idToName || id in Ids(es)
    ensures |AddAll(m, es).idToName| == |m.idToName| + |es|
    decreases |es|
  {
    if |es| > 0 {
      var m' := Add(m, es[0]);
      var rest := es[1..];
      FreshCons(m, es);
      AddAllNames(m', rest);
      AddCount(m, es[0]);
      forall k | 0 <= k < |es| ensures es[k].id in AddAll(m, es).idToName && AddAll(m, es).idToName[es[k].id] == es[k].name {
        if k > 0 {
          assert es[k] == rest[k - 1];
        }
      }
      forall x | x in AddAll(m, es).idToName ensures x in m.idToName || x in Ids(es) {
        if x in Ids(rest) {
          var k :| 0 <= k < |rest| && Ids(rest)[k] == x;
          assert Ids(es)[k + 1] == x;
        } else if x !in m.idToName {
          assert Ids(es)[0] == x;
        }
      }
    }
  }

  /** Adding records extends every key's list by the ids of its records, in order. */
  lemma {:induction false} AddAllKeys(m: Mapping, es: seq<Record>, key: string)
    ensures IdsOf(AddAll(m, es), key) == IdsOf(m, key) + KeyIds(es, key)
    decreases |es|
  {
    if |es| > 0 {
      var m' := Add(m, es[0]);
      assert IdsOf(m', key) == IdsOf(m, key) + (if es[0].key == key then [es[0].id] else []);
      AddAllKeys(m', es[1..], key);
    }
  }

  /**
   * Loading from line `i` with mapping `m` succeeds exactly when no line is
   * faulty, the ids are fresh and distinct, and the result has at least one
   * entry; the result is then `m` with those records added.
   */
  lemma {:induction false} LoadFromMeaning(os: seq<LineOutcome>, i: nat, m: Mapping)
    requires i <= |os|
    ensures LoadFrom(os, i, m).Ok? <==>
      AllParse(os, i) && Fresh(m, Parsed(os, i)) && |m.idToName| + |Parsed(os, i)| > 0
    ensures LoadFrom(os, i, m).Ok? ==> LoadFrom(os, i, m).value == AddAll(m, Parsed(os, i))
    decreases |os| - i
  {
    if i < |os| {
      match os[i]
      case BlankLine =>
        LoadFromMeaning(os, i + 1, m);
      case Faulty(_) =>
      case Researcher(rec) =>
        var es := Parsed(os, i);
        assert es[0] == rec && es[1..] == Parsed(os, i + 1);
        assert AllParse(os, i) == AllParse(os, i + 1);
        FreshCons(m, es);
        if rec.id !in m.idToName {
          var m' := Add(m, rec);
          assert LoadFrom(os, i, m) == LoadFrom(os, i + 1, m');
          assert AddAll(m, es) == AddAll(m', es[1..]);
          LoadFromMeaning(os, i + 1, m');
          AddCount(m, rec);
        }
    }
  }

  /** Every line from `i` on counts once, as a record or as an empty line. */
  lemma {:induction false} ParsedLength(os: seq<LineOutcome>, i: nat)
    requires i <= |os| && AllParse(os, i)
    ensures |Parsed(os, i)| == NonEmptyLines(os, i)
    decreases |os| - i
  {
    if i < |os| {
      ParsedLength(os, i + 1);
    }
  }

  /**
   * A loaded mapping holds one researcher per non-empty line: each line's id
   * carries its trimmed name, no other id is present, and each key lists
   * the ids of its lines in file order. Loading fails exactly when a line
   * is faulty, an id repeats, or no line is non-empty.
   */
  lemma LoadMeaning(lines: seq<string>)
    ensures Load(lines).Ok? <==>
      AllParse(Outcomes(lines), 0) && Distinct(Ids(Parsed(Outcomes(lines), 0))) && NonEmptyLines(Outcomes(lines), 0) > 0
    ensures Load(lines).Ok? ==>
      && Total(Load(lines).value) == NonEmptyLines(Outcomes(lines), 0)
      && (forall k | 0 <= k < |Parsed(Outcomes(lines), 0)| ::
            NameById(Load(lines).value, Parsed(Outcomes(lines), 0)[k].id) == Ok(Parsed(Outcomes(lines), 0)[k].name))
      && (forall id | ContainsId(Load(lines).value, id) :: id in Ids(Parsed(Outcomes(lines), 0)))
      && (forall key :: IdsOf(Load(lines).value, key) == KeyIds(Parsed(Outcomes(lines), 0), key))
  {
    var os := Outcomes(lines);
    LoadFromMeaning(os, 0, Empty);
    if AllParse(os, 0) {
      ParsedLength(os, 0);
      if Distinct(Ids(Parsed(os, 0))) {
        AddAllNames(Empty, Parsed(os, 0));
        forall key ensures IdsOf(AddAll(Empty, Parsed(os, 0)), key) == KeyIds(Parsed(os, 0), key) {
          AddAllKeys(Empty, Parsed(os, 0), key);
        }
      }
    }
  }

  /** A line error names a faulty line, with its fault. */
  lemma {:induction false} LineErrorAt(os: seq<LineOutcome>, i: nat, m: Mapping)
    requires i <= |os| && LoadFrom(os, i, m).Err? && LoadFrom(os, i, m).error.LineError?
    ensures i < LoadFrom(os, i, m).error.line <= |os|
    ensures os[LoadFrom(os, i, m).error.line - 1] == Faulty(LoadFrom(os, i, m).error.fault)
    decreases |os| - i
  {
    match os[i]
    case BlankLine =>
      LineErrorAt(os, i + 1, m);
    case Faulty(_) =>
    case Researcher(rec) =>
      LineErrorAt(os, i + 1, Add(m, rec));
  }

  /** The id of line `n` (1-based) is held by `m` or by an earlier line from `i` on. */
  predicate HeldBefore(os: seq<LineOutcome>, i: nat, m: Mapping, id: int, n: nat)
    requires n <= |os|
  {
    id in m.idToName || exists k | i <= k < n - 1 :: os[k].Researcher? && os[k].rec.id == id
  }

  /** A duplicate names a line whose id `m` or an earlier line already holds. */
  lemma {:induction false} DuplicateAt(os: seq<LineOutcome>, i: nat, m: Mapping)
    requires i <= |os| && LoadFrom(os, i, m).Err? && LoadFrom(os, i, m).error.DuplicateId?
    ensures i < LoadFrom(os, i, m).error.line <= |os|
    ensures os[LoadFrom(os, i, m).error.line - 1].Researcher?
    ensures os[LoadFrom(os, i, m).error.line - 1].rec.id == LoadFrom(os, i, m).error.id
    ensures HeldBefore(os, i, m, LoadFrom(os, i, m).error.id, LoadFrom(os, i, m).error.line)
    decreases |os| - i
  {
    match os[i]
    case BlankLine =>
      DuplicateAt(os, i + 1, m);
    case Faulty(_) =>
    case Researcher(rec) =>
      if rec.id !in m.idToName {
        var m' := Add(m, rec);
        DuplicateAt(os, i + 1, m');
        var e := LoadFrom(os, i + 1, m').error;
        if e.id in m'.idToName && e.id !in m.idToName {
          assert os[i].rec.id == e.id;
        }
      }
  }

  /** "No researchers" means `m` was empty and every remaining line is empty. */
  lemma {:induction false} NoResearchersMeaning(os: seq<LineOutcome>, i: nat, m: Mapping)
    requires i <= |os| && LoadFrom(os, i, m) == Err(NoResearchers)
    ensures |m.idToName| == 0 && forall k | i <= k < |os| :: os[k].BlankLine?
    decreases |os| - i
  {
    if i < |os| {
      match os[i]
      case BlankLine =>
        NoResearchersMeaning(os, i + 1, m);
      case Faulty(_) =>
      case Researcher(rec) =>
        NoResearchersMeaning(os, i + 1, Add(m, rec));
    }
  }

  /**
   * The consistency of the two maps: every id is listed under its name's
   * key, and every listed id names a researcher whose name has that key.
   */
  predicate Consistent(m: Mapping) {
    && (forall id | id in m.idToName :: id in IdsOf(m, Normalize(m.idToName[id])))
    && (forall key, k | key in m.nameToIds && 0 <= k < |m.nameToIds[key]| ::
          m.nameToIds[key][k] in m.idToName && Normalize(m.idToName[m.nameToIds[key][k]]) == key)
  }

  /** A record whose key is its name's normalised form. */
  predicate Keyed(r: Record) {
    r.key == Normalize(r.name)
  }

  /** Adding a new, correctly keyed record keeps the maps consistent. */
  lemma AddConsistent(m: Mapping, r: Record)
    requires Consistent(m) && r.id !in m.idToName && Keyed(r)
    ensures Consistent(Add(m, r))
  {
    var m' := Add(m, r);
    forall x | x in m'.idToName ensures x in IdsOf(m', Normalize(m'.idToName[x])) {
      if x != r.id {
        var kx := Normalize(m.idToName[x]);
        assert x in IdsOf(m, kx);
        assert IdsOf(m', kx) == IdsOf(m, kx) || IdsOf(m', kx) == IdsOf(m, kx) + [r.id];
      } else {
        assert IdsOf(m', r.key)[|IdsOf(m', r.key)| - 1] == r.id;
      }
    }
    forall kk, k | kk in m'.nameToIds && 0 <= k < |m'.nameToIds[kk]|
      ensures m'.nameToIds[kk][k] in m'.idToName && Normalize(m'.idToName[m'.nameToIds[kk][k]]) == kk
    {
      if kk == r.key && k == |IdsOf(m, r.key)| {
        assert m'.nameToIds[kk][k] == r.id;
      } else if kk == r.key {
        assert m'.nameToIds[kk][k] == m.nameToIds[kk][k];
      }
    }
  }

  /** Loading keeps any property of the mapping that adding a keyed record under a new id keeps. */
  lemma {:induction false} LoadFromKeeps(os: seq<LineOutcome>, i: nat, m: Mapping, inv: Mapping -> bool)
    requires i <= |os| && inv(m)
    requires forall k | i <= k < |os| && os[k].Researcher? :: Keyed(os[k].rec)
    requires forall m': Mapping, r: Record | r.id !in m'.idToName && Keyed(r) && inv(m') :: inv(Add(m', r))
    ensures LoadFrom(os, i, m).Ok? ==> inv(LoadFrom(os, i, m).value)
    decreases |os| - i
  {
    if i < |os| {
      match os[i]
      case BlankLine =>
        LoadFromKeeps(os, i + 1, m, inv);
      case Faulty(_) =>
      case Researcher(rec) =>
        if rec.id !in m.idToName {
          LoadFromKeeps(os, i + 1, Add(m, rec), inv);
        }
    }
  }

  lemma LoadFromConsistent(os: seq<LineOutcome>, i: nat, m: Mapping)
    requires i <= |os| && Consistent(m)
    requires forall k | i <= k < |os| && os[k].Researcher? :: Keyed(os[k].rec)
    ensures LoadFrom(os, i, m).Ok? ==> Consistent(LoadFrom(os, i, m).value)
  {
    forall m': Mapping, r: Record | r.id !in m'.idToName && Keyed(r) && Consistent(m') ensures Consistent(Add(m', r)) {
      AddConsistent(m', r);
    }
    LoadFromKeeps(os, i, m, Consistent);
  }

  /**
   * In a loaded mapping the two lookups agree: a researcher's name finds
   * its id, and every id a name finds belongs to a researcher of that name
   * up to case and surrounding blanks.
   */
  lemma LookupsAgree(lines: seq<string>, id: int, name: string)
    requires Load(lines).Ok?
    ensures NameById(Load(lines).value, id) == Ok(name) ==>
      IdsByName(Load(lines).value, name).Ok? && id in IdsByName(Load(lines).value, name).value
    ensures IdsByName(Load(lines).value, name).Ok? && id in IdsByName(Load(lines).value, name).value ==>
      NameById(Load(lines).value, id).Ok? && Normalize(NameById(Load(lines).value, id).value) == Normalize(name)
  {
    LoadFromConsistent(Outcomes(lines), 0, Empty);
    var m := Load(lines).value;
    if IdsByName(m, name).Ok? && id in IdsByName(m, name).value {
      var k :| 0 <= k < |m.nameToIds[Normalize(name)]| && m.nameToIds[Normalize(name)][k] == id;
    }
  }

  // ---------------------------------------------------------------------
  // Writing a file the loader reads back
  // ---------------------------------------------------------------------

  /** The line `id,name`, the id in decimal. */
  function FormatLine(id: nat, name: string): string {
    Decimal(id) + "," + name
  }

  /** Entries a file can carry: positive ids in `int` range, names trimmed and non-empty. */
  predicate Writable(es: seq<(int, string)>) {
    forall k | 0 <= k < |es| :: 0 < es[k].0 <= IntMax && es[k].1 != "" && Trimmed(es[k].1)
  }

  function Format(es: seq<(int, string)>): (lines: seq<string>)
    requires Writable(es)
    ensures |lines| == |es|
  {
    seq(|es|, k requires 0 <= k < |es| => FormatLine(es[k].0, es[k].1))
  }

  lemma {:induction false} FindCommaAt(s: string, i: nat, d: nat)
    requires i <= d < |s| && s[d] == ',' && forall k | i <= k < d :: s[k] != ','
    ensures FindComma(s, i) == Some(d)
    decreases d - i
  {
    if i < d {
      FindCommaAt(s, i + 1, d);
    }
  }

  /** The two sides of a formatted line, split at its first comma. */
  lemma SplitFormatted(id: nat, name: string)
    ensures FindComma(FormatLine(id, name), 0) == Some(|Decimal(id)|)
    ensures FormatLine(id, name)[..|Decimal(id)|] == Decimal(id)
    ensures FormatLine(id, name)[|Decimal(id)| + 1..] == name
  {
    var d := Decimal(id);
    var line := FormatLine(id, name);
    assert line[|d|] == ',';
    assert forall k | 0 <= k < |d| :: line[k] == d[k];
    FindCommaAt(line, 0, |d|);
    assert line[..|d|] == d;
    assert line[|d| + 1..] == name;
  }

  /** A formatted line parses back to its id and name. */
  lemma ParseFormatted(id: int, name: string)
    requires 0 < id <= IntMax && name != "" && Trimmed(name)
    ensures Classify(FormatLine(id, name)) == Researcher(Record(id, name, Normalize(name)))
  {
    var d := Decimal(id);
    SplitFormatted(id, name);
    assert !IsBlank(d[0]) && !IsBlank(d[|d| - 1]);
    TrimOfTrimmed(d);
    TrimOfTrimmed(name);
    StoiDecimal(id);
    NoBadField(d, name);
  }

  lemma {:induction false} ParsedAll(rs: seq<Record>, os: seq<LineOutcome>, i: nat)
    requires |os| == |rs| && i <= |rs|
    requires forall k | 0 <= k < |rs| :: os[k] == Researcher(rs[k])
    ensures AllParse(os, i) && Parsed(os, i) == rs[i..] && NonEmptyLines(os, i) == |rs| - i
    decreases |rs| - i
  {
    if i < |rs| {
      ParsedAll(rs, os, i + 1);
      assert rs[i..] == [rs[i]] + rs[i + 1..];
    }
  }

  /** The records a formatted file yields. */
  function Records(es: seq<(int, string)>): (rs: seq<Record>)
    ensures |rs| == |es| && forall k | 0 <= k < |es| :: rs[k] == Record(es[k].0, es[k].1, Normalize(es[k].1))
  {
    seq(|es|, k requires 0 <= k < |es| => Record(es[k].0, es[k].1, Normalize(es[k].1)))
  }

  /** Every formatted line is a researcher line carrying its entry. */
  lemma FormatOutcomes(es: seq<(int, string)>)
    requires Writable(es)
    ensures AllParse(Outcomes(Format(es)), 0)
    ensures Parsed(Outcomes(Format(es)), 0) == Records(es)
    ensures NonEmptyLines(Outcomes(Format(es)), 0) == |es|
  {
    var os := Outcomes(Format(es));
    var rs := Records(es);
    forall k | 0 <= k < |es| ensures os[k] == Researcher(rs[k]) {
      ParseFormatted(es[k].0, es[k].1);
    }
    ParsedAll(rs, os, 0);
    assert rs[0..] == rs;
  }

  /** Loading the formatted entries gives back every entry, and nothing else. */
  lemma LoadFormat(es: seq<(int, string)>)
    requires Writable(es) && |es| > 0
    requires forall a, b | 0 <= a < b < |es| :: es[a].0 != es[b].0
    ensures Load(Format(es)).Ok?
    ensures Total(Load(Format(es)).value) == |es|
    ensures forall k | 0 <= k < |es| :: NameById(Load(Format(es)).value, es[k].0) == Ok(es[k].1)
    ensures forall id | ContainsId(Load(Format(es)).value, id) :: exists k | 0 <= k < |es| :: es[k].0 == id
  {
    var lines := Format(es);
    FormatOutcomes(es);
    var rs := Records(es);
    assert Distinct(Ids(rs));
    LoadMeaning(lines);
    var m := Load(lines).value;
    forall k | 0 <= k < |es| ensures NameById(m, es[k].0) == Ok(es[k].1) {
      assert rs[k].id == es[k].0 && rs[k].name == es[k].1;
    }
    forall id | ContainsId(m, id) ensures exists k | 0 <= k < |es| :: es[k].0 == id {
      var k :| 0 <= k < |rs| && Ids(rs)[k] == id;
      assert es[k].0 == id;
    }
  }

  // ---------------------------------------------------------------------
  // Lookups
  // ---------------------------------------------------------------------

  /** `obterIdsPorNome`: the ids of the normalised name, which must be present. */
  function IdsByName(m: Mapping, name: string): (r: Result<seq<int>, LookupError>)
    ensures r.Ok? <==> Normalize(name) in m.nameToIds
    ensures r.Ok? ==> r.value == m.nameToIds[Normalize(name)]
    ensures r.Err? ==> r.error == NameNotFound(name)
  {
    var key := Normalize(name);
    if key in m.nameToIds then Ok(m.nameToIds[key]) else Err(NameNotFound(name))
  }

  /** `obterIdPorNome`: the only id of the name; an absent name or several ids are errors. */
  function IdByName(m: Mapping, name: string): (r: Result<int, LookupError>)
    ensures r.Ok? <==> Normalize(name) in m.nameToIds && |m.nameToIds[Normalize(name)]| == 1
    ensures r.Ok? ==> r.value == m.nameToIds[Normalize(name)][0]
    ensures Normalize(name) !in m.nameToIds ==> r == Err(NameNotFound(name))
    ensures Normalize(name) in m.nameToIds && |m.nameToIds[Normalize(name)]| != 1 ==> r == Err(MultipleIds(name))
  {
    match IdsByName(m, name)
    case Err(e) => Err(e)
    case Ok(ids) => if |ids| == 1 then Ok(ids[0]) else Err(MultipleIds(name))
  }

  /** `obterNomePorId`. */
  function NameById(m: Mapping, id: int): (r: Result<string, LookupError>)
    ensures r.Ok? <==> id in m.idToName
    ensures r.Ok? ==> r.value == m.idToName[id]
    ensures r.Err? ==> r.error == IdNotFound(id)
  {
    if id in m.idToName then Ok(m.idToName[id]) else Err(IdNotFound(id))
  }

  /** `contemNome`. */
  function ContainsName(m: Mapping, name: string): (b: bool)
    ensures b <==> IdsByName(m, name).Ok?
  {
    Normalize(name) in m.nameToIds
  }

  /** `contemId`. */
  function ContainsId(m: Mapping, id: int): (b: bool)
    ensures b <==> NameById(m, id).Ok?
  {
    id in m.idToName
  }

  /** `totalPesquisadores`. */
  function Total(m: Mapping): nat {
    |m.idToName|
  }

  /** Name lookups ignore letter case and surrounding blanks. */
  lemma LookupIgnoresCase(m: Mapping, a: string, b: string)
    requires Normalize(a) == Normalize(b)
    ensures ContainsName(m, a) == ContainsName(m, b)
    ensures IdsByName(m, a).Ok? == IdsByName(m, b).Ok?
    ensures IdsByName(m, a).Ok? ==> IdsByName(m, a).value == IdsByName(m, b).value
    ensures IdByName(m, a).Ok? == IdByName(m, b).Ok?
  {
  }

  /** Looking up a name, its trimmed form or its normalised form gives the same answer. */
  lemma LookupOfNormalized(m: Mapping, name: string)
    ensures ContainsName(m, Normalize(name)) == ContainsName(m, name)
    ensures ContainsName(m, Trim(name)) == ContainsName(m, name)
  {
    NormalizeIdempotent(name);
    NormalizeOfTrim(name);
  }
}
