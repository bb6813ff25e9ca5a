/**
 The observation store: a ring of the latest interactions in memory and an append-only journal of
 lines on disk, compacted now and then. JSON and lower-casing are parameters.
 */
module Journal {
  import opened Wrappers

  /** The longest line, newline included, that the reader's buffer takes. */
  const LINE_LIMIT: nat := 2 * 1024 * 1024

  datatype Interaction = Interaction(
    id: string, upstreamId: string, protocol: string, outcome: string, operation: string, requestSummary: string,
    requestText: string, responseText: string, error: string, requestJson: string, responseJson: string)

  datatype Codec = Codec(encode: Interaction -> Option<string>, decode: string -> Option<Interaction>, lower: string -> string)

  /**
   A written line can be read, what was read can be written, and writing what was read back from a written
   line changes nothing more. The first writing may: JSON loses its white space, for one.
   */
  ghost predicate Lawful(c: Codec) {
    && (forall item :: c.encode(item).Some? ==> c.decode(c.encode(item).value).Some?)
    && (forall line :: c.decode(line).Some? ==> c.encode(c.decode(line).value).Some?)
    && (forall item :: Stored(c, item).Some? ==> Normal(c, Stored(c, item).value))
    && c.lower("") == ""
  }

  /** What the line written for an item reads back as. */
  function Stored(c: Codec, item: Interaction): Option<Interaction> {
    match c.encode(item)
    case None => None
    case Some(line) => c.decode(line)
  }

  predicate Normal(c: Codec, item: Interaction) {
    Stored(c, item) == Some(item)
  }

  datatype JournalError = BadRetention | LineTooLong | NotCompacted | NotEncoded | NotWritten

  /** Which of a step's disk operations succeed. */
  datatype Disk = Disk(append: bool, rewrite: bool)

  const HEALTHY: Disk := Disk(true, true)

  /** `file` is None before the journal exists; its lines carry no newline. */
  datatype State = State(items: seq<Interaction>, writes: nat, file: Option<seq<string>>)

  function Lines(s: State): seq<string> {
    if s.file.None? then [] else s.file.value
  }

  function Last<T>(s: seq<T>, n: nat): (r: seq<T>)
    ensures |r| == if |s| < n then |s| else n
  {
    if |s| > n then s[|s| - n..] else s
  }

  function Quarter(max: nat): (q: nat)
    ensures q >= 1
  {
    if max / 4 > 1 then max / 4 else 1
  }

  /** The records of a journal; lines that are not JSON are skipped. */
  function Decoded(c: Codec, lines: seq<string>): seq<Interaction> {
    if lines == [] then []
    else
      var item := c.decode(lines[|lines| - 1]);
      Decoded(c, lines[..|lines| - 1]) + if item.Some? then [item.value] else []
  }

  function Encoded(c: Codec, items: seq<Interaction>): Option<seq<string>> {
    if items == [] then Some([])
    else
      var line, before := c.encode(items[|items| - 1]), Encoded(c, items[..|items| - 1]);
      if line.None? || before.None? then None else Some(before.value + [line.value])
  }

  predicate Readable(lines: seq<string>) {
    forall i :: 0 <= i < |lines| ==> |lines[i]| + 1 <= LINE_LIMIT
  }

  // ----- the operations ------------------------------------------------------------------------

  function Opened(c: Codec, file: Option<seq<string>>, max: int, disk: Disk): Result<State, JournalError> {
    if max < 1 then Err(BadRetention)
    else if file.None? then Ok(State([], 0, None))
    else if !Readable(file.value) then Err(LineTooLong) else
    var loaded := Decoded(c, file.value);
    var items := Last(loaded, max);
    if |loaded| <= max then Ok(State(items, 0, file))
    else if !disk.rewrite || Encoded(c, items).None? then Err(NotCompacted)
    else Ok(State(items, 0, Encoded(c, items)))
  }

  function Appended(c: Codec, s: State, item: Interaction, max: nat, disk: Disk): State {
    var line := c.encode(item);
    State(Last(s.items + [item], max), s.writes + 1, if line.Some? && disk.append then Some(Lines(s) + [line.value]) else s.file)
  }

  predicate Due(s: State, max: nat) {
    |s.items| == max && s.writes >= Quarter(max)
  }

  function Compacted(c: Codec, s: State, disk: Disk): State {
    s.(writes := 0, file := if disk.rewrite && Encoded(c, s.items).Some? then Encoded(c, s.items) else s.file)
  }

  function Recorded(c: Codec, s: State, item: Interaction, max: nat, disk: Disk): State {
    var grown := Appended(c, s, item, max, disk);
    if Due(grown, max) then Compacted(c, grown, disk) else grown
  }

  function Cleared(s: State, disk: Disk): State {
    State([], 0, if disk.rewrite then Some([]) else s.file)
  }

  // ----- queries -------------------------------------------------------------------------------

  datatype Query = Query(upstreamId: string, protocol: string, outcome: string, search: string, limit: int)

  predicate StartsAt(text: string, needle: string, i: nat) {
    i <= |text| - |needle| && text[i..i + |needle|] == needle
  }

  predicate Contains(text: string, needle: string) {
    exists i :: 0 <= i <= |text| && StartsAt(text, needle, i)
  }

  predicate Matches(c: Codec, query: Query, item: Interaction) {
    && (query.upstreamId == "" || item.upstreamId == query.upstreamId)
    && (query.protocol == "" || item.protocol == query.protocol)
    && (query.outcome == "" || item.outcome == query.outcome)
    && (c.lower(query.search) == ""
        || Contains(c.lower(item.operation + " " + item.requestSummary + " " + item.requestText + " " + item.responseText + " " + item.error),
                    c.lower(query.search))
        || Contains(c.lower(item.requestJson + " " + item.responseJson), c.lower(query.search)))
  }

  function Limit(limit: int, max: nat): nat {
    if limit <= 0 || limit > max then (if max < 250 then max else 250) else limit
  }

  /** The matching items, newest first. */
  function Matching(c: Codec, query: Query, items: seq<Interaction>): seq<Interaction> {
    if items == [] then []
    else
      var last := items[|items| - 1];
      (if Matches(c, query, last) then [last] else []) + Matching(c, query, items[..|items| - 1])
  }

  function Answer(c: Codec, query: Query, items: seq<Interaction>, max: nat): seq<Interaction> {
    var all := Matching(c, query, items);
    if |all| <= Limit(query.limit, max) then all else all[..Limit(query.limit, max)]
  }

  // ----- the store -----------------------------------------------------------------------------

  class Store {
    const codec: Codec
    const max: nat
    var items: seq<Interaction>
    var writes: nat
    var lastError: Option<JournalError>
    var file: Option<seq<string>>

    ghost function View(): State
      reads this
    {
      State(items, writes, file)
    }

    constructor (codec: Codec, max: nat, items: seq<Interaction>, file: Option<seq<string>>)
      ensures this.codec == codec && this.max == max && lastError == None && View() == State(items, 0, file)
    {
      this.codec, this.max, this.items, this.file := codec, max, items, file;
      writes, lastError := 0, None;
    }

    method Rewrite(disk: Disk) returns (error: Option<JournalError>)
      modifies this`file
      ensures View() == old(View()).(file := if error.None? then Encoded(codec, items) else old(file))
      ensures error.None? <==> disk.rewrite && Encoded(codec, items).Some?
    {
      var temporary: seq<string> := [];
      for i := 0 to |items|
        invariant Encoded(codec, items[..i]) == Some(temporary)
      {
        var line := codec.encode(items[i]);
        assert items[..i + 1][..i] == items[..i];
        if line.None? {
          EncodedPrefix(codec, items, i + 1);
          return Some(NotEncoded);
        }
        temporary := temporary + [line.value];
      }
      assert items[..|items|] == items;
      if !disk.rewrite {
        return Some(NotWritten);
      }
      file := Some(temporary);
      return None;
    }

    method Append(encoded: Option<string>, disk: Disk)
      modifies this`file, this`lastError
      ensures file == if encoded.Some? && disk.append then Some(Lines(old(View())) + [encoded.value]) else old(file)
      ensures lastError == if encoded.None? then Some(NotEncoded) else if disk.append then None else Some(NotWritten)
    {
      if encoded.None? {
        lastError := Some(NotEncoded);
      } else if !disk.append {
        lastError := Some(NotWritten);
      } else {
        file := Some((if file.None? then [] else file.value) + [encoded.value]);
        lastError := None;
      }
    }

    method Record(item: Interaction, disk: Disk)
      modifies this
      ensures View() == Recorded(codec, old(View()), item, max, disk)
      ensures lastError.None? <==>
              var grown := Appended(codec, old(View()), item, max, disk);
              if Due(grown, max) && (!disk.rewrite || Encoded(codec, grown.items).None?) then false
              else codec.encode(item).Some? && disk.append
    {
      hide Encoded, Quarter, Last;
      Remember(item);
      Append(codec.encode(item), disk);
      writes := writes + 1;
      assert View() == Appended(codec, old(View()), item, max, disk);
      if |items| == max && writes >= Quarter(max) {
        var failed := Rewrite(disk);
        if failed.Some? {
          lastError := failed;
        }
        writes := 0;
      }
    }

    method Remember(item: Interaction)
      modifies this`items
      ensures items == Last(old(items) + [item], max)
    {
      items := items + [item];
      if |items| > max {
        items := items[|items| - max..];
      }
    }

    method List(query: Query) returns (result: seq<Interaction>)
      ensures result == Answer(codec, query, items, max)
    {
      hide Matches;
      var limit := Limit(query.limit, max);
      result := [];
      var i := |items|;
      assert items[..i] == items;
      while i > 0 && |result| < limit
        invariant 0 <= i <= |items| && |result| <= limit
        invariant result + Matching(codec, query, items[..i]) == Matching(codec, query, items)
        decreases i
      {
        i := i - 1;
        var item := items[i];
        assert items[..i + 1][..i] == items[..i];
        if Matches(codec, query, item) {
          ghost var rest := Matching(codec, query, items[..i]);
          assert result + ([item] + rest) == (result + [item]) + rest;
          result := result + [item];
        }
      }
      assert result == (result + Matching(codec, query, items[..i]))[..|result|];
    }

    method Clear(disk: Disk) returns (error: Option<JournalError>)
      modifies this
      ensures View() == Cleared(old(View()), disk)
      ensures error == lastError && (error.None? <==> disk.rewrite)
    {
      items := [];
      writes := 0;
      if !disk.rewrite {
        lastError := Some(NotWritten);
      } else {
        file := Some([]);
        lastError := None;
      }
      return lastError;
    }
  }

  /** Opening reads the file line by line. */
  method OpenStore(codec: Codec, file: Option<seq<string>>, max: int, disk: Disk) returns (r: Result<Store,
                   JournalError>)
    ensures r.Ok? <==> Opened(codec, file, max, disk).Ok?
    ensures r.Ok? ==> fresh(r.value) && r.value.View() == Opened(codec, file, max, disk).value
                      && r.value.codec == codec && r.value.max == max
    ensures r.Err? ==> r.error == Opened(codec, file, max, disk).error
  {
    if max < 1 {
      return Err(BadRetention);
    }
    if file.None? {
      var empty := new Store(codec, max, [], None);
      return Ok(empty);
    }
    var lines, items := file.value, [];
    for i := 0 to |lines|
      invariant Readable(lines[..i]) && items == Decoded(codec, lines[..i])
    {
      if |lines[i]| + 1 > LINE_LIMIT {
        return Err(LineTooLong);
      }
      assert lines[..i + 1][..i] == lines[..i];
      var item := codec.decode(lines[i]);
      if item.Some? {
        items := items + [item.value];
      }
    }
    assert lines[..|lines|] == lines;
    var loaded := |items|;
    if |items| > max {
      items := items[|items| - max..];
    }
    var store := new Store(codec, max, items, file);
    if loaded > max {
      var failed := store.Rewrite(disk);
      if failed.Some? {
        return Err(NotCompacted);
      }
    }
    return Ok(store);
  }

  // ----- what the journal holds for the ring ---------------------------------------------------

  lemma {:induction false} EncodedPrefix(c: Codec, items: seq<Interaction>, n: nat)
    requires n <= |items| && Encoded(c, items[..n]).None?
    ensures Encoded(c, items).None?
    decreases |items| - n
  {
    if n == |items| {
      assert items[..n] == items;
    } else {
      assert items[..n + 1][..n] == items[..n];
      EncodedPrefix(c, items, n + 1);
    }
  }

  predicate AllEncodable(c: Codec, items: seq<Interaction>) {
    forall i :: 0 <= i < |items| ==> c.encode(items[i]).Some?
  }

  predicate AllNormal(c: Codec, items: seq<Interaction>) {
    forall i :: 0 <= i < |items| ==> Normal(c, items[i])
  }

  function StoredAll(c: Codec, items: seq<Interaction>): (stored: seq<Option<Interaction>>)
    ensures |stored| == |items|
    ensures forall i :: 0 <= i < |items| ==> stored[i] == Stored(c, items[i])
  {
    seq(|items|, i requires 0 <= i < |items| => Stored(c, items[i]))
  }

  /** Items that came from the journal: their own lines read back as them. */
  function Loaded(items: seq<Interaction>): (stored: seq<Option<Interaction>>)
    ensures |stored| == |items|
    ensures forall i :: 0 <= i < |items| ==> stored[i] == Some(items[i])
  {
    seq(|items|, i requires 0 <= i < |items| => Some(items[i]))
  }

  function Present(stored: seq<Option<Interaction>>): (items: seq<Interaction>)
    ensures |items| <= |stored|
  {
    if stored == [] then []
    else
      var last := stored[|stored| - 1];
      Present(stored[..|stored| - 1]) + if last.Some? then [last.value] else []
  }

  lemma PresentSnoc(stored: seq<Option<Interaction>>, last: Option<Interaction>)
    ensures Present(stored + [last]) == Present(stored) + if last.Some? then [last.value] else []
  {
    assert (stored + [last])[..|stored|] == stored;
  }

  lemma {:induction false} PresentRest(stored: seq<Option<Interaction>>)
    requires stored != []
    ensures Present(stored) == (if stored[0].Some? then [stored[0].value] else []) + Present(stored[1..])
  {
    var before, last := stored[..|stored| - 1], stored[|stored| - 1];
    if before == [] {
      assert stored == [last] && stored[1..] == [];
    } else {
      PresentRest(before);
      assert stored[1..] == before[1..] + [last];
      PresentSnoc(before[1..], last);
    }
  }

  /** All are present exactly when as many are. */
  lemma {:induction false} PresentAll(stored: seq<Option<Interaction>>)
    ensures |Present(stored)| == |stored| <==> forall i :: 0 <= i < |stored| ==> stored[i].Some?
    ensures |Present(stored)| == |stored| ==> stored == Loaded(Present(stored))
  {
    if stored != [] {
      var before := stored[..|stored| - 1];
      PresentAll(before);
      assert stored == before + [stored[|stored| - 1]];
    }
  }

  lemma PresentLoaded(items: seq<Interaction>)
    ensures Present(Loaded(items)) == items
  {
    PresentAll(Loaded(items));
    var present := Present(Loaded(items));
    assert forall i :: 0 <= i < |items| ==> Loaded(items)[i] == Loaded(present)[i] == Some(present[i]);
  }

  lemma LastOfLast<T>(s: seq<T>, x: T, n: nat)
    requires n >= 1
    ensures Last(Last(s, n) + [x], n) == Last(s + [x], n)
  {
  }

  lemma LastSuffix<T>(s: seq<T>, n: nat, m: nat)
    requires m <= n <= |s|
    ensures Last(Last(s, n), m) == Last(s, m)
  {
  }

  lemma DecodedSnoc(c: Codec, lines: seq<string>, item: Interaction)
    requires Lawful(c) && c.encode(item).Some?
    ensures Stored(c, item).Some?
    ensures Decoded(c, lines + [c.encode(item).value]) == Decoded(c, lines) + [Stored(c, item).value]
  {
    var more := lines + [c.encode(item).value];
    assert more[..|more| - 1] == lines;
  }

  /** A compacted journal holds what the items' lines read back as. */
  lemma {:induction false} EncodedReadsBack(c: Codec, items: seq<Interaction>)
    requires Lawful(c)
    ensures Encoded(c, items).Some? <==> AllEncodable(c, items)
    ensures Encoded(c, items).Some? ==>
              var decoded := Decoded(c, Encoded(c, items).value);
              decoded == Present(StoredAll(c, items)) && |decoded| == |items| && StoredAll(c, items) == Loaded(decoded)
  {
    hide Lawful;
    if items != [] {
      var before, last := items[..|items| - 1], items[|items| - 1];
      EncodedReadsBack(c, before);
      assert items == before + [last];
      assert StoredAll(c, items) == StoredAll(c, before) + [Stored(c, last)];
      PresentSnoc(StoredAll(c, before), Stored(c, last));
      if Encoded(c, items).Some? {
        DecodedSnoc(c, Encoded(c, before).value, last);
        assert Encoded(c, items).value == Encoded(c, before).value + [c.encode(last).value];
      }
    }
  }

  lemma {:induction false} DecodedEncodable(c: Codec, lines: seq<string>)
    requires Lawful(c)
    ensures AllEncodable(c, Decoded(c, lines))
  {
    if lines != [] {
      DecodedEncodable(c, lines[..|lines| - 1]);
    }
  }

  // ----- runs ----------------------------------------------------------------------------------

  datatype Op = Record(item: Interaction) | Clear | Reopen

  function Step(c: Codec, s: State, op: Op, max: nat): Result<State, JournalError> {
    match op
    case Record(item) => Ok(Recorded(c, s, item, max, HEALTHY))
    case Clear => Ok(Cleared(s, HEALTHY))
    case Reopen => Opened(c, s.file, max, HEALTHY)
  }

  function Run(c: Codec, s: State, ops: seq<Op>, max: nat): Result<State, JournalError>
    decreases |ops|
  {
    if ops == [] then Ok(s)
    else
      var next := Step(c, s, ops[0], max);
      if next.Err? then next else Run(c, next.value, ops[1..], max)
  }

  /** For each item of a ring just opened, what its line in the journal reads back as. */
  function OpenedLines(c: Codec, file: Option<seq<string>>, max: nat): seq<Option<Interaction>> {
    if file.None? then []
    else
      var items := Last(Decoded(c, file.value), max);
      if |Decoded(c, file.value)| <= max then Loaded(items) else StoredAll(c, items)
  }

  /** The same after a step: a record has the line written for it, a compaction writes every line anew. */
  function LinesAfter(c: Codec, s: State, stored: seq<Option<Interaction>>, op: Op, max: nat): seq<Option<Interaction>> {
    match op
    case Record(item) =>
      var grown := Appended(c, s, item, max, HEALTHY);
      if Due(grown, max) && Encoded(c, grown.items).Some? then StoredAll(c, grown.items) else Last(stored + [Stored(c, item)], max)
    case Clear => []
    case Reopen => OpenedLines(c, s.file, max)
  }

  function OwnLines(c: Codec, s: State, stored: seq<Option<Interaction>>, ops: seq<Op>, max: nat): seq<Option<Interaction>>
    decreases |ops|
  {
    if ops == [] then stored
    else
      var next := Step(c, s, ops[0], max);
      if next.Err? then [] else OwnLines(c, next.value, LinesAfter(c, s, stored, ops[0], max), ops[1..], max)
  }

  /** What every run keeps: the journal ends in the ring's own lines, and is no more until the ring is full. */
  predicate Mirrors(c: Codec, s: State, stored: seq<Option<Interaction>>, max: nat) {
    var present, written := Present(stored), Decoded(c, Lines(s));
    && max >= 1 && |stored| == |s.items| <= max
    && (forall i :: 0 <= i < |s.items| ==> (stored[i].Some? <==> c.encode(s.items[i]).Some?))
    && |present| <= |written| && present == Last(written, |present|)
    && (|s.items| < max ==> written == present)
  }

  lemma TailGrows<T>(a: seq<T>, b: seq<T>, more: seq<T>)
    requires |a| <= |b| && a == Last(b, |a|)
    ensures a + more == Last(b + more, |a| + |more|)
  {
  }

  /** Without its first line, what is present is the tail of what was. */
  lemma WithoutFirst(stored: seq<Option<Interaction>>)
    requires stored != []
    ensures |Present(stored[1..])| <= |Present(stored)|
    ensures Present(stored[1..]) == Last(Present(stored), |Present(stored[1..])|)
  {
    hide Present;
    PresentRest(stored);
  }

  lemma DecodedGrows(c: Codec, s: State, item: Interaction, max: nat)
    requires Lawful(c)
    ensures Stored(c, item).Some? <==> c.encode(item).Some?
    ensures Decoded(c, Lines(Appended(c, s, item, max, HEALTHY)))
         == Decoded(c, Lines(s)) + if Stored(c, item).Some? then [Stored(c, item).value] else []
  {
    hide Lawful, Decoded;
    if c.encode(item).Some? {
      DecodedSnoc(c, Lines(s), item);
    }
  }

  lemma AppendMirrors(c: Codec, s: State, stored: seq<Option<Interaction>>, item: Interaction, max: nat)
    requires Lawful(c) && Mirrors(c, s, stored, max)
    ensures Mirrors(c, Appended(c, s, item, max, HEALTHY), Last(stored + [Stored(c, item)], max), max)
  {
    hide Lawful, Decoded, Present, Stored;
    var grown, more := Appended(c, s, item, max, HEALTHY), stored + [Stored(c, item)];
    PresentSnoc(stored, Stored(c, item));
    DecodedGrows(c, s, item, max);
    TailGrows(Present(stored), Decoded(c, Lines(s)), if Stored(c, item).Some? then [Stored(c, item).value] else []);
    if |s.items| == max {
      WithoutFirst(more);
      LastSuffix(Decoded(c, Lines(grown)), |Present(more)|, |Present(more[1..])|);
      assert Last(more, max) == more[1..] && grown.items == (s.items + [item])[1..];
    } else {
      assert Last(more, max) == more && grown.items == s.items + [item];
    }
  }

  lemma RecordMirrors(c: Codec, s: State, stored: seq<Option<Interaction>>, item: Interaction, max: nat)
    requires Lawful(c) && Mirrors(c, s, stored, max)
    ensures Mirrors(c, Recorded(c, s, item, max, HEALTHY), LinesAfter(c, s, stored, Record(item), max), max)
  {
    hide Lawful, Decoded, Present, AllEncodable, Encoded;
    var grown := Appended(c, s, item, max, HEALTHY);
    AppendMirrors(c, s, stored, item, max);
    if Due(grown, max) && Encoded(c, grown.items).Some? {
      WrittenMirrors(c, grown.items, 0, max);
    }
  }

  /** The ring and a journal written from it. */
  lemma WrittenMirrors(c: Codec, items: seq<Interaction>, writes: nat, max: nat)
    requires Lawful(c) && Encoded(c, items).Some? && |items| <= max && max >= 1
    ensures Mirrors(c, State(items, writes, Encoded(c, items)), StoredAll(c, items), max)
  {
    hide Lawful, Decoded, Present;
    EncodedReadsBack(c, items);
    LastOfShort(Decoded(c, Encoded(c, items).value), |items|);
  }

  lemma LastOfShort<T>(s: seq<T>, n: nat)
    requires |s| <= n
    ensures Last(s, n) == s
  {
  }

  lemma OpenMirrors(c: Codec, file: Option<seq<string>>, max: int)
    requires Lawful(c) && Opened(c, file, max, HEALTHY).Ok?
    ensures max >= 1 && Mirrors(c, Opened(c, file, max, HEALTHY).value, OpenedLines(c, file, max), max)
  {
    hide Lawful, Decoded, Present, AllEncodable, Encoded;
    NothingDecoded(c);
    if file.Some? {
      DecodedEncodable(c, file.value);
      var loaded := Decoded(c, file.value);
      var items := Last(loaded, max);
      LastAreEncodable(c, loaded, max);
      EncodedReadsBack(c, items);
      if |loaded| <= max {
        PresentLoaded(items);
        LastOfShort(loaded, |items|);
        AllEncodableAt(c, items);
      } else {
        WrittenMirrors(c, items, 0, max);
      }
    }
  }

  lemma AllEncodableAt(c: Codec, items: seq<Interaction>)
    requires AllEncodable(c, items)
    ensures forall i :: 0 <= i < |items| ==> c.encode(items[i]).Some?
  {
  }

  lemma NothingDecoded(c: Codec)
    ensures Present([]) == [] && Decoded(c, []) == []
  {
  }

  lemma LastAreEncodable(c: Codec, items: seq<Interaction>, n: nat)
    requires AllEncodable(c, items)
    ensures AllEncodable(c, Last(items, n))
  {
  }

  lemma ClearMirrors(c: Codec, s: State, max: nat)
    requires max >= 1
    ensures Mirrors(c, Cleared(s, HEALTHY), [], max)
  {
  }

  lemma StepMirrors(c: Codec, s: State, stored: seq<Option<Interaction>>, op: Op, max: nat)
    requires Lawful(c) && Mirrors(c, s, stored, max) && Step(c, s, op, max).Ok?
    ensures Mirrors(c, Step(c, s, op, max).value, LinesAfter(c, s, stored, op, max), max)
  {
    hide Lawful, Recorded, Opened, OpenedLines, Cleared, Decoded, Present;
    match op
    case Record(item) => RecordMirrors(c, s, stored, item, max);
    case Clear => ClearMirrors(c, s, max);
    case Reopen => OpenMirrors(c, s.file, max);
  }

  lemma {:induction false} RunMirrors(c: Codec, s: State, stored: seq<Option<Interaction>>, ops: seq<Op>, max: nat)
    requires Lawful(c) && Mirrors(c, s, stored, max) && Run(c, s, ops, max).Ok?
    ensures Mirrors(c, Run(c, s, ops, max).value, OwnLines(c, s, stored, ops, max), max)
    decreases |ops|
  {
    hide Lawful, Mirrors, Step, LinesAfter;
    if ops != [] {
      StepMirrors(c, s, stored, ops[0], max);
      RunMirrors(c, Step(c, s, ops[0], max).value, LinesAfter(c, s, stored, ops[0], max), ops[1..], max);
    }
  }

  // ----- agreement -----------------------------------------------------------------------------

  /** The ring is the tail of the journal. */
  predicate Agree(c: Codec, s: State, max: nat) {
    s.items == Last(Decoded(c, Lines(s)), max)
  }

  lemma MirrorsAgreeIff(c: Codec, s: State, stored: seq<Option<Interaction>>, max: nat)
    requires Lawful(c) && Mirrors(c, s, stored, max)
    ensures Agree(c, s, max) <==> stored == Loaded(s.items)
    ensures Last(Last(Decoded(c, Lines(s)), max), |Present(stored)|) == Present(stored)
    ensures |s.items| < max || AllEncodable(c, s.items) ==> Last(Decoded(c, Lines(s)), max) == Present(stored)
  {
    hide Lawful, Decoded, Present;
    var written, present := Decoded(c, Lines(s)), Present(stored);
    PresentAll(stored);
    LastSuffix(written, |Last(written, max)|, |present|);
    if Agree(c, s, max) {
      DecodedEncodable(c, Lines(s));
      LastAreEncodable(c, written, max);
      AllEncodableAt(c, s.items);
    }
    if stored == Loaded(s.items) {
      PresentLoaded(s.items);
    }
  }

  /** Every query is answered alike from two rings exactly when they are the same. */
  lemma AnswersTellApart(c: Codec, a: seq<Interaction>, b: seq<Interaction>, max: nat)
    requires Lawful(c) && |a| <= max && |b| <= max && max >= 1
    ensures (forall query :: Answer(c, query, a, max) == Answer(c, query, b, max)) <==> a == b
  {
    hide Lawful;
    if forall query :: Answer(c, query, a, max) == Answer(c, query, b, max) {
      var all := Query("", "", "", "", max);
      AllMatch(c, all, a);
      AllMatch(c, all, b);
      assert Answer(c, all, a, max) == Answer(c, all, b, max);
      assert |a| == |b|;
      forall i | 0 <= i < |a| ensures a[i] == b[i] {
        assert Matching(c, all, a)[|a| - 1 - i] == Matching(c, all, b)[|a| - 1 - i];
      }
    }
  }

  /** A query without conditions lists everything, newest first. */
  lemma {:induction false} AllMatch(c: Codec, all: Query, items: seq<Interaction>)
    requires Lawful(c) && all.upstreamId == "" && all.protocol == "" && all.outcome == "" && all.search == ""
    ensures |Matching(c, all, items)| == |items|
    ensures forall i :: 0 <= i < |items| ==> Matching(c, all, items)[|items| - 1 - i] == items[i]
  {
    if items != [] {
      AllMatch(c, all, items[..|items| - 1]);
      assert Matches(c, all, items[|items| - 1]);
    }
  }

  lemma OpenIff(c: Codec, file: Option<seq<string>>, max: int)
    requires Lawful(c)
    ensures var r := Opened(c, file, max, HEALTHY);
            && (r.Ok? <==> max >= 1 && (file.None? || Readable(file.value)))
            && (r.Ok? ==> r.value.items == Last(Decoded(c, if file.None? then [] else file.value), max))
  {
    hide Lawful;
    NothingDecoded(c);
    if max >= 1 && file.Some? {
      DecodedEncodable(c, file.value);
      EncodedReadsBack(c, Last(Decoded(c, file.value), max));
    }
  }

  /**
   Reopening, in whatever state: it succeeds exactly when every line fits the reader, gives the tail of the
   journal, and every query is answered as before exactly when the ring was that tail.
   */
  lemma ReopenIff(c: Codec, s: State, max: nat)
    requires Lawful(c) && max >= 1 && |s.items| <= max
    ensures var r := Opened(c, s.file, max, HEALTHY);
            && (r.Ok? <==> Readable(Lines(s)))
            && (r.Ok? ==> r.value.items == Last(Decoded(c, Lines(s)), max))
            && (r.Ok? ==> ((forall query :: Answer(c, query, r.value.items, max) == Answer(c, query, s.items, max)) <==> Agree(c, s, max)))
  {
    hide Lawful, Decoded, Answer;
    OpenIff(c, s.file, max);
    var tail := Last(Decoded(c, Lines(s)), max);
    AnswersTellApart(c, tail, s.items, max);
  }

  /**
   Any run without disk failures over any file that opens, whatever is recorded. The ring is the tail of the
   journal exactly when every item is what its own line reads back as. A restart brings back what those
   lines hold, in order and newest last - nothing else, while the ring is not full or all can be encoded - and answers every
   query as before exactly when ring and journal agreed.
   */
  lemma AgreesIff(c: Codec, file: Option<seq<string>>, ops: seq<Op>, max: nat)
    requires Lawful(c)
    requires Opened(c, file, max, HEALTHY).Ok? && Run(c, Opened(c, file, max, HEALTHY).value, ops, max).Ok?
    ensures var start := Opened(c, file, max, HEALTHY).value;
            var s, stored := Run(c, start, ops, max).value, OwnLines(c, start, OpenedLines(c, file, max), ops, max);
            var restarted := Opened(c, s.file, max, HEALTHY);
            && (Agree(c, s, max) <==> stored == Loaded(s.items))
            && (restarted.Ok? <==> Readable(Lines(s)))
            && (restarted.Ok? ==>
                && Last(restarted.value.items, |Present(stored)|) == Present(stored)
                && (|s.items| < max || AllEncodable(c, s.items) ==> restarted.value.items == Present(stored))
                && ((forall query :: Answer(c, query, restarted.value.items, max) == Answer(c, query, s.items, max))
                    <==> stored == Loaded(s.items)))
  {
    hide Lawful, Run, OwnLines, OpenedLines, Decoded, Present, Answer, AllEncodable, Agree, Opened, Readable;
    OpenMirrors(c, file, max);
    var start := Opened(c, file, max, HEALTHY).value;
    RunMirrors(c, start, OpenedLines(c, file, max), ops, max);
    var s, stored := Run(c, start, ops, max).value, OwnLines(c, start, OpenedLines(c, file, max), ops, max);
    MirrorsAgreeIff(c, s, stored, max);
    ReopenIff(c, s, max);
  }

  // ----- journals that the program wrote -------------------------------------------------------

  /** Every record of the journal is what a line of the program reads back as, and so is each item's own line. */
  predicate Written(c: Codec, s: State, stored: seq<Option<Interaction>>) {
    AllNormal(c, Decoded(c, Lines(s))) && stored == StoredAll(c, s.items)
  }

  lemma {:induction false} PresentNormal(c: Codec, items: seq<Interaction>)
    requires Lawful(c)
    ensures AllNormal(c, Present(StoredAll(c, items)))
  {
    if items != [] {
      var before, last := items[..|items| - 1], items[|items| - 1];
      PresentNormal(c, before);
      assert StoredAll(c, items) == StoredAll(c, before) + [Stored(c, last)];
      PresentSnoc(StoredAll(c, before), Stored(c, last));
    }
  }

  lemma NormalIsLoaded(c: Codec, items: seq<Interaction>)
    ensures AllNormal(c, items) <==> StoredAll(c, items) == Loaded(items)
  {
    if StoredAll(c, items) == Loaded(items) {
      assert forall i :: 0 <= i < |items| ==> StoredAll(c, items)[i] == Loaded(items)[i];
    }
  }

  lemma OpenWritten(c: Codec, file: Option<seq<string>>, max: int)
    requires Lawful(c) && Opened(c, file, max, HEALTHY).Ok? && (file.Some? ==> AllNormal(c, Decoded(c, file.value)))
    ensures max >= 1 && Written(c, Opened(c, file, max, HEALTHY).value, OpenedLines(c, file, max))
  {
    hide Lawful, Decoded, Present, Encoded;
    NothingDecoded(c);
    if file.Some? {
      var items := Last(Decoded(c, file.value), max);
      NormalIsLoaded(c, items);
      EncodedReadsBack(c, items);
      PresentLoaded(items);
    }
  }

  lemma StoredOfLast(c: Codec, items: seq<Interaction>, item: Interaction, n: nat)
    ensures StoredAll(c, Last(items + [item], n)) == Last(StoredAll(c, items) + [Stored(c, item)], n)
  {
    hide Stored;
    assert StoredAll(c, items + [item]) == StoredAll(c, items) + [Stored(c, item)];
  }

  lemma AppendWritten(c: Codec, s: State, item: Interaction, max: nat)
    requires Lawful(c) && AllNormal(c, Decoded(c, Lines(s)))
    ensures AllNormal(c, Decoded(c, Lines(Appended(c, s, item, max, HEALTHY))))
  {
    hide Lawful, Decoded, Last, Stored;
    if c.encode(item).Some? {
      DecodedSnoc(c, Lines(s), item);
      StoredIsNormal(c, item);
    }
  }

  lemma RecordWritten(c: Codec, s: State, stored: seq<Option<Interaction>>, item: Interaction, max: nat)
    requires Lawful(c) && max >= 1 && Written(c, s, stored)
    ensures Written(c, Recorded(c, s, item, max, HEALTHY), LinesAfter(c, s, stored, Record(item), max))
  {
    hide Lawful, Decoded, Present, Encoded, AllNormal, StoredAll, Last, Quarter;
    var grown := Appended(c, s, item, max, HEALTHY);
    AppendWritten(c, s, item, max);
    StoredOfLast(c, s.items, item, max);
    if Due(grown, max) && Encoded(c, grown.items).Some? {
      EncodedReadsBack(c, grown.items);
      PresentNormal(c, grown.items);
    }
  }

  lemma StepWritten(c: Codec, s: State, stored: seq<Option<Interaction>>, op: Op, max: nat)
    requires Lawful(c) && Mirrors(c, s, stored, max) && Written(c, s, stored) && Step(c, s, op, max).Ok?
    ensures Written(c, Step(c, s, op, max).value, LinesAfter(c, s, stored, op, max))
  {
    hide Lawful, Opened, OpenedLines, Decoded, Present, Encoded, Recorded;
    match op
    case Record(item) => RecordWritten(c, s, stored, item, max);
    case Clear => NothingDecoded(c);
    case Reopen =>
      OpenWritten(c, s.file, max);
  }

  lemma StoredIsNormal(c: Codec, item: Interaction)
    requires Lawful(c) && Stored(c, item).Some?
    ensures Normal(c, Stored(c, item).value)
  {
  }

  lemma {:induction false} RunWritten(c: Codec, s: State, stored: seq<Option<Interaction>>, ops: seq<Op>, max: nat)
    requires Lawful(c) && Mirrors(c, s, stored, max) && Written(c, s, stored) && Run(c, s, ops, max).Ok?
    ensures Written(c, Run(c, s, ops, max).value, OwnLines(c, s, stored, ops, max))
    decreases |ops|
  {
    hide Lawful, Mirrors, Step, LinesAfter, Written;
    if ops != [] {
      StepMirrors(c, s, stored, ops[0], max);
      StepWritten(c, s, stored, ops[0], max);
      RunWritten(c, Step(c, s, ops[0], max).value, LinesAfter(c, s, stored, ops[0], max), ops[1..], max);
    }
  }

  /**
   The same over no file or one that the program wrote: the ring is the tail of the journal, and a restart answers every
   query as before, exactly when every item in the ring is its own normal form; and a restart
   brings back the normal forms of the items that can be encoded.
   */
  lemma RestartAnswersAlikeIff(c: Codec, file: Option<seq<string>>, ops: seq<Op>, max: nat)
    requires Lawful(c) && (file.Some? ==> AllNormal(c, Decoded(c, file.value)))
    requires Opened(c, file, max, HEALTHY).Ok? && Run(c, Opened(c, file, max, HEALTHY).value, ops, max).Ok?
    ensures var s := Run(c, Opened(c, file, max, HEALTHY).value, ops, max).value;
            var restarted, kept := Opened(c, s.file, max, HEALTHY), Present(StoredAll(c, s.items));
            && (Agree(c, s, max) <==> AllNormal(c, s.items))
            && (restarted.Ok? ==>
                && Last(restarted.value.items, |kept|) == kept
                && (|s.items| < max || AllEncodable(c, s.items) ==> restarted.value.items == kept)
                && ((forall query :: Answer(c, query, restarted.value.items, max) == Answer(c, query, s.items, max))
                    <==> AllNormal(c, s.items)))
  {
    hide Lawful, Run, OwnLines, OpenedLines, Decoded, Present, Answer, AllEncodable, Agree, Opened, AllNormal, Mirrors, Stored;
    AgreesIff(c, file, ops, max);
    OpenMirrors(c, file, max);
    OpenWritten(c, file, max);
    var start := Opened(c, file, max, HEALTHY).value;
    RunWritten(c, start, OpenedLines(c, file, max), ops, max);
    NormalIsLoaded(c, Run(c, start, ops, max).value.items);
  }

  /** One item that its line does not read back as, recorded in an empty store: a search that finds it before a restart does not after. */
  lemma NormalisedItemIsNotFound(c: Codec, item: Interaction, query: Query, max: nat)
    requires Lawful(c) && max >= 1 && c.encode(item).Some? && |c.encode(item).value| + 1 <= LINE_LIMIT
    requires Matches(c, query, item) && !Matches(c, query, Stored(c, item).value)
    ensures var s := Recorded(c, State([], 0, None), item, max, HEALTHY);
            var restarted := Opened(c, s.file, max, HEALTHY);
            && AllEncodable(c, s.items) && !Agree(c, s, max)
            && Answer(c, query, s.items, max) == [item]
            && restarted.Ok? && restarted.value.items == [Stored(c, item).value] && Answer(c, query, restarted.value.items, max) == []
  {
    DecodedSnoc(c, [], item);
    hide Lawful, Matches, Answer, Recorded, Opened, Decoded, Readable, AllEncodable, Stored, Last;
    var s, back := Recorded(c, State([], 0, None), item, max, HEALTHY), Stored(c, item).value;
    OneRecord(c, item, max);
    OneLine(c, item);
    OpenIff(c, s.file, max);
    AnswerOne(c, query, item, max);
    AnswerOne(c, query, back, max);
    LastOfShort([back], max);
    assert [item][0] != [back][0];
  }

  lemma OneRecord(c: Codec, item: Interaction, max: nat)
    requires max >= 1 && c.encode(item).Some?
    ensures var s := Recorded(c, State([], 0, None), item, max, HEALTHY);
            s.items == [item] && s.file == Some([c.encode(item).value])
  {
    var line, grown := c.encode(item).value, Appended(c, State([], 0, None), item, max, HEALTHY);
    assert [] + [line] == [line] && [] + [item] == [item];
    assert grown.items == [item] && grown.file == Some([line]);
    assert Encoded(c, [item]) == Some([line]) by {
      assert [item][..0] == [];
    }
  }

  lemma OneLine(c: Codec, item: Interaction)
    requires Lawful(c) && c.encode(item).Some?
    ensures Decoded(c, [c.encode(item).value]) == [Stored(c, item).value]
    ensures AllEncodable(c, [item])
    ensures |c.encode(item).value| + 1 <= LINE_LIMIT ==> Readable([c.encode(item).value])
  {
    hide Lawful, Stored;
    DecodedSnoc(c, [], item);
    assert [] + [c.encode(item).value] == [c.encode(item).value];
  }

  lemma AnswerOne(c: Codec, query: Query, item: Interaction, max: nat)
    requires max >= 1
    ensures Answer(c, query, [item], max) == if Matches(c, query, item) then [item] else []
  {
    hide Matches;
    assert [item][..0] == [] && Matching(c, query, []) == [];
  }

  // ----- how long the journal grows ------------------------------------------------------------

  /** What every step of encodable records keeps. */
  predicate Sound(c: Codec, s: State, max: nat) {
    var records := |Decoded(c, Lines(s))|;
    && max >= 1 && |s.items| <= max && AllEncodable(c, s.items)
    && (if |s.items| < max then records == |s.items| else records <= max + s.writes && s.writes < Quarter(max))
  }

  lemma OpenSound(c: Codec, file: Option<seq<string>>, max: int)
    requires Lawful(c) && Opened(c, file, max, HEALTHY).Ok?
    ensures max >= 1 && Sound(c, Opened(c, file, max, HEALTHY).value, max)
  {
    hide Lawful;
    if file.Some? {
      DecodedEncodable(c, file.value);
      EncodedReadsBack(c, Last(Decoded(c, file.value), max));
    }
  }

  lemma RecordSound(c: Codec, s: State, item: Interaction, max: nat)
    requires Lawful(c) && Sound(c, s, max) && c.encode(item).Some?
    ensures Sound(c, Recorded(c, s, item, max, HEALTHY), max)
  {
    hide Lawful, Decoded, Last, AllEncodable;
    var grown := Appended(c, s, item, max, HEALTHY);
    DecodedSnoc(c, Lines(s), item);
    LastEncodable(c, s.items, item, max);
    EncodedReadsBack(c, grown.items);
  }

  lemma LastEncodable(c: Codec, items: seq<Interaction>, item: Interaction, n: nat)
    requires AllEncodable(c, items) && c.encode(item).Some?
    ensures AllEncodable(c, Last(items + [item], n))
  {
  }

  lemma ClearSound(c: Codec, s: State, max: nat)
    requires max >= 1
    ensures Sound(c, Cleared(s, HEALTHY), max)
  {
  }

  predicate AllWritable(c: Codec, ops: seq<Op>) {
    forall i :: 0 <= i < |ops| && ops[i].Record? ==> c.encode(ops[i].item).Some?
  }

  lemma {:induction false} RunSound(c: Codec, s: State, ops: seq<Op>, max: nat)
    requires Lawful(c) && Sound(c, s, max) && AllWritable(c, ops) && Run(c, s, ops, max).Ok?
    ensures Sound(c, Run(c, s, ops, max).value, max)
    decreases |ops|
  {
    hide Lawful, Sound, Recorded, Cleared, Opened;
    if ops != [] {
      var next := Step(c, s, ops[0], max).value;
      assert Sound(c, next, max) by {
        assert max >= 1 by {
          SoundBounds(c, s, max);
        }
        match ops[0]
        case Record(item) => RecordSound(c, s, item, max);
        case Clear => ClearSound(c, s, max);
        case Reopen => OpenSound(c, s.file, max);
      }
      RunSound(c, next, ops[1..], max);
    }
  }

  /** The journal never holds more than the ring and one compaction period less one. */
  lemma SoundBounds(c: Codec, s: State, max: nat)
    requires Sound(c, s, max)
    ensures max >= 1 && |Decoded(c, Lines(s))| <= max + Quarter(max) - 1
  {
  }

  /** Over any run of encodable records, clears and reopenings over any file that opens. */
  lemma JournalBounded(c: Codec, file: Option<seq<string>>, ops: seq<Op>, max: nat)
    requires Lawful(c) && AllWritable(c, ops)
    requires Opened(c, file, max, HEALTHY).Ok? && Run(c, Opened(c, file, max, HEALTHY).value, ops, max).Ok?
    ensures |Decoded(c, Lines(Run(c, Opened(c, file, max, HEALTHY).value, ops, max).value))| <= max + Quarter(max) - 1
  {
    hide Lawful, Sound, Run, Opened;
    OpenSound(c, file, max);
    var start := Opened(c, file, max, HEALTHY).value;
    RunSound(c, start, ops, max);
    SoundBounds(c, Run(c, start, ops, max).value, max);
  }

  // ----- lines that are too long ---------------------------------------------------------------

  predicate Short(c: Codec, item: Interaction) {
    c.encode(item).Some? && |c.encode(item).value| + 1 <= LINE_LIMIT
  }

  predicate AllShort(c: Codec, items: seq<Interaction>) {
    forall i :: 0 <= i < |items| ==> Short(c, items[i])
  }

  predicate ShortRecords(c: Codec, ops: seq<Op>) {
    forall i :: 0 <= i < |ops| && ops[i].Record? ==> Short(c, ops[i].item)
  }

  /** What a short line of the program reads back as is written as a short line again. */
  ghost predicate Compact(c: Codec) {
    forall item :: Short(c, item) && Stored(c, item).Some? ==> Short(c, Stored(c, item).value)
  }

  /** The lines fit, and so would the lines of all records in the ring and in the journal. */
  predicate Fitting(c: Codec, s: State) {
    Readable(Lines(s)) && AllShort(c, s.items) && AllShort(c, Decoded(c, Lines(s)))
  }

  lemma {:induction false} EncodedFits(c: Codec, items: seq<Interaction>)
    requires Lawful(c) && Compact(c) && AllShort(c, items)
    ensures Encoded(c, items).Some? && Readable(Encoded(c, items).value) && AllShort(c, Decoded(c, Encoded(c, items).value))
  {
    hide Lawful, Compact;
    if items != [] {
      var before, last := items[..|items| - 1], items[|items| - 1];
      EncodedFits(c, before);
      DecodedSnoc(c, Encoded(c, before).value, last);
      StoredShort(c, last);
    }
  }

  lemma StoredShort(c: Codec, item: Interaction)
    requires Compact(c) && Short(c, item) && Stored(c, item).Some?
    ensures Short(c, Stored(c, item).value)
  {
  }

  lemma StepFits(c: Codec, s: State, op: Op, max: nat)
    requires Lawful(c) && Compact(c) && Fitting(c, s) && max >= 1
    requires op.Record? ==> Short(c, op.item)
    ensures var r := Step(c, s, op, max);
            r.Ok? && Fitting(c, r.value)
  {
    hide Lawful, Compact, Decoded, Encoded;
    match op
    case Record(item) =>
      assert AllShort(c, s.items + [item]);
      EncodedFits(c, Last(s.items + [item], max));
      DecodedSnoc(c, Lines(s), item);
      StoredShort(c, item);
    case Clear => NothingDecoded(c);
    case Reopen =>
      NothingDecoded(c);
      EncodedFits(c, Last(Decoded(c, Lines(s)), max));
  }

  /** With records that fit, every reopening in every run succeeds. */
  lemma {:induction false} ShortRunSucceeds(c: Codec, s: State, ops: seq<Op>, max: nat)
    requires Lawful(c) && Compact(c) && Fitting(c, s) && max >= 1 && ShortRecords(c, ops)
    ensures var r := Run(c, s, ops, max);
            r.Ok? && Fitting(c, r.value)
    decreases |ops|
  {
    hide Lawful, Compact, Step, Fitting, Short;
    if ops != [] {
      StepFits(c, s, ops[0], max);
      ShortRunSucceeds(c, Step(c, s, ops[0], max).value, ops[1..], max);
    }
  }

  /** One record that does not fit is accepted, listed, and keeps the next start from opening the journal. */
  lemma LongRecordStopsReopening(c: Codec, item: Interaction, max: nat)
    requires max >= 1 && c.encode(item).Some? && |c.encode(item).value| + 1 > LINE_LIMIT
    ensures var s := Recorded(c, State([], 0, None), item, max, HEALTHY);
            s.items == [item] && Opened(c, s.file, max, HEALTHY) == Err(LineTooLong)
  {
    var line := c.encode(item).value;
    var grown := Appended(c, State([], 0, None), item, max, HEALTHY);
    assert grown.items == [item] && Lines(grown) == [line];
    assert Encoded(c, [item]) == Some([line]) by {
      assert [item][..0] == [];
    }
    assert !Readable([line]) by {
      assert |[line][0]| + 1 > LINE_LIMIT;
    }
  }

  // ----- after failures ------------------------------------------------------------------------

  /**
   Whatever failed before, after a clear or a compaction that succeeds the journal holds the normal forms of the
   ring's items, so the two agree again exactly when the items are normal.
   */
  lemma SuccessHeals(c: Codec, s: State, item: Interaction, max: nat, disk: Disk)
    requires Lawful(c) && max >= 1
    ensures Agree(c, Cleared(s, HEALTHY), max)
    ensures var grown, after := Appended(c, s, item, max, disk), Recorded(c, s, item, max, disk);
            Due(grown, max) && disk.rewrite && AllEncodable(c, grown.items) ==>
              && Decoded(c, Lines(after)) == Present(StoredAll(c, after.items))
              && (Agree(c, after, max) <==> AllNormal(c, after.items))
  {
    hide Lawful, Decoded, Present, Encoded;
    NothingDecoded(c);
    var grown := Appended(c, s, item, max, disk);
    if Due(grown, max) && disk.rewrite && AllEncodable(c, grown.items) {
      EncodedReadsBack(c, grown.items);
      NormalIsLoaded(c, grown.items);
      var after := Recorded(c, s, item, max, disk);
      LastOfShort(Decoded(c, Lines(after)), max);
      LoadedTellsApart(Decoded(c, Lines(after)), after.items);
    }
  }

  lemma LoadedTellsApart(a: seq<Interaction>, b: seq<Interaction>)
    ensures Loaded(a) == Loaded(b) <==> a == b
  {
    PresentLoaded(a);
    PresentLoaded(b);
  }

  // ----- what a query returns ------------------------------------------------------------------

  predicate Rank(items: seq<Interaction>, positions: seq<nat>, answer: seq<Interaction>) {
    && |positions| == |answer|
    && (forall i :: 0 <= i < |positions| ==> positions[i] < |items| && answer[i] == items[positions[i]])
    && (forall i, j :: 0 <= i < j < |positions| ==> positions[i] > positions[j])
  }

  /** A filter that is not given takes everything. */
  predicate Accepts(filter: string, value: string) {
    filter == "" || value == filter
  }

  ghost predicate OccursIn(needle: string, text: string) {
    exists before, after :: text == before + needle + after
  }

  /** What a query asks for: its own upstream, protocol and outcome, and its search text anywhere, whatever the case. */
  ghost predicate Found(c: Codec, query: Query, item: Interaction) {
    var needle := c.lower(query.search);
    && Accepts(query.upstreamId, item.upstreamId) && Accepts(query.protocol, item.protocol) && Accepts(query.outcome, item.outcome)
    && (|| needle == ""
        || OccursIn(needle, c.lower(item.operation + " " + item.requestSummary + " " + item.requestText + " " + item.responseText + " " + item.error))
        || OccursIn(needle, c.lower(item.requestJson + " " + item.responseJson)))
  }

  lemma ContainsIff(text: string, needle: string)
    ensures Contains(text, needle) <==> OccursIn(needle, text)
  {
    if Contains(text, needle) {
      var i :| 0 <= i <= |text| && StartsAt(text, needle, i);
      assert text == text[..i] + needle + text[i + |needle|..];
    }
    if OccursIn(needle, text) {
      var before, after :| text == before + needle + after;
      assert StartsAt(text, needle, |before|);
    }
  }

  lemma MatchesIff(c: Codec, query: Query, item: Interaction)
    ensures Matches(c, query, item) <==> Found(c, query, item)
  {
    hide Contains, OccursIn;
    var texts := item.operation + " " + item.requestSummary + " " + item.requestText + " " + item.responseText + " " + item.error;
    ContainsIff(c.lower(texts), c.lower(query.search));
    ContainsIff(c.lower(item.requestJson + " " + item.responseJson), c.lower(query.search));
  }

  /** Lower-casing works letter by letter. */
  ghost predicate LetterByLetter(c: Codec) {
    forall a, b {:trigger c.lower(a + b)} :: c.lower(a + b) == c.lower(a) + c.lower(b)
  }

  predicate IsTextOf(item: Interaction, text: string) {
    text == item.operation || text == item.requestSummary || text == item.requestText || text == item.responseText
    || text == item.error || text == item.requestJson || text == item.responseJson
  }

  lemma OccursInside(needle: string, before: string, text: string, after: string)
    requires OccursIn(needle, text)
    ensures OccursIn(needle, before + text + after)
  {
    var front, back :| text == front + needle + back;
    assert before + text + after == (before + front) + needle + (back + after);
  }

  lemma AmongFive(a: string, b: string, c: string, d: string, e: string)
    ensures a + (" " + b + " " + c + " " + d + " " + e) == a + " " + b + " " + c + " " + d + " " + e
    ensures (a + " ") + b + (" " + c + " " + d + " " + e) == a + " " + b + " " + c + " " + d + " " + e
    ensures (a + " " + b + " ") + c + (" " + d + " " + e) == a + " " + b + " " + c + " " + d + " " + e
    ensures (a + " " + b + " " + c + " ") + d + (" " + e) == a + " " + b + " " + c + " " + d + " " + e
  {
    assert " " + b + " " + c + " " + d + " " + e == " " + (b + (" " + c + " " + d + " " + e));
    assert " " + c + " " + d + " " + e == " " + (c + (" " + d + " " + e));
    assert " " + d + " " + e == " " + (d + (" " + e));
  }

  lemma AroundText(item: Interaction, text: string) returns (before: string, after: string)
    requires IsTextOf(item, text)
    ensures before + text + after == item.operation + " " + item.requestSummary + " " + item.requestText + " " + item.responseText + " " + item.error
         || before + text + after == item.requestJson + " " + item.responseJson
  {
    var Interaction(_, _, _, _, a, b, c, d, e, json, reply) := item;
    AmongFive(a, b, c, d, e);
    before, after := "", "";
    if text == a {
      after := " " + b + " " + c + " " + d + " " + e;
      assert before + a == a;
    } else if text == b {
      before, after := a + " ", " " + c + " " + d + " " + e;
    } else if text == c {
      before, after := a + " " + b + " ", " " + d + " " + e;
    } else if text == d {
      before, after := a + " " + b + " " + c + " ", " " + e;
    } else if text == e {
      before := a + " " + b + " " + c + " " + d + " ";
      assert before + e + after == before + e;
    } else if text == json {
      after := " " + reply;
      assert before + json + after == json + (" " + reply) == json + " " + reply;
    } else {
      before := json + " ";
      assert before + reply + after == json + " " + reply;
    }
  }

  /** Every text of an item is searched. */
  lemma TextIsSearched(c: Codec, query: Query, item: Interaction, text: string)
    requires LetterByLetter(c) && IsTextOf(item, text) && OccursIn(c.lower(query.search), c.lower(text))
    requires Accepts(query.upstreamId, item.upstreamId) && Accepts(query.protocol, item.protocol) && Accepts(query.outcome, item.outcome)
    ensures Matches(c, query, item)
  {
    hide Matches, OccursIn, IsTextOf;
    MatchesIff(c, query, item);
    var before, after := AroundText(item, text);
    assert c.lower(before + text + after) == c.lower(before + text) + c.lower(after) == c.lower(before) + c.lower(text) + c.lower(after);
    OccursInside(c.lower(query.search), c.lower(before), c.lower(text), c.lower(after));
  }

  /** The matching items are those that the query asks for, newest first. */
  lemma {:induction false} MatchingIsExact(c: Codec, query: Query,
                        items: seq<Interaction>) returns (positions: seq<nat>)
    ensures Rank(items, positions, Matching(c, query, items))
    ensures forall p :: 0 <= p < |items| ==> (p in positions <==> Found(c, query, items[p]))
  {
    hide Matches, Found;
    if items == [] {
      positions := [];
    } else {
      var n := |items| - 1;
      MatchesIff(c, query, items[n]);
      var before := MatchingIsExact(c, query, items[..n]);
      positions := (if Matches(c, query, items[n]) then [n as nat] else []) + before;
    }
  }

  /**
   The answer to a query: what it asks for, newest first, as many as its limit, which has to be between one and the retention; otherwise
   at most 250. An item that it asks for is missing only from a full answer, all of which is newer.
   */
  lemma AnswerIsExact(c: Codec, query: Query, items: seq<Interaction>, max: nat) returns (positions: seq<nat>)
    requires max >= 1
    ensures Rank(items, positions, Answer(c, query, items, max))
    ensures forall p :: p in positions ==> p < |items| && Found(c, query, items[p])
    ensures var limit := if 1 <= query.limit <= max then query.limit else if max < 250 then max else 250;
            && |positions| <= limit
            && forall p :: 0 <= p < |items| && Found(c, query, items[p]) && p !in positions ==>
                 |positions| == limit && forall q :: q in positions ==> p < q
  {
    hide Matches, Found, Rank;
    var all := MatchingIsExact(c, query, items);
    var limit := if 1 <= query.limit <= max then query.limit else if max < 250 then max else 250;
    RankLength(items, all, Matching(c, query, items));
    positions := all;
    if |all| > limit {
      RankPrefix(items, all, Matching(c, query, items), limit);
      positions := all[..limit];
    }
  }

  lemma RankLength(items: seq<Interaction>, positions: seq<nat>, answer: seq<Interaction>)
    requires Rank(items, positions, answer)
    ensures |positions| == |answer| && forall p :: p in positions ==> p < |items|
  {
  }

  lemma InPrefix(all: seq<nat>, limit: nat, i: nat)
    requires i < limit <= |all|
    ensures all[i] in all[..limit]
  {
    assert all[..limit][i] == all[i];
  }

  lemma RankPrefix(items: seq<Interaction>, all: seq<nat>, answer: seq<Interaction>, limit: nat)
    requires Rank(items, all, answer) && limit <= |all|
    ensures Rank(items, all[..limit], answer[..limit]) && forall p :: p in all[..limit] ==> p in all
    ensures forall p, q :: p in all && p !in all[..limit] && q in all[..limit] ==> p < q
  {
    forall p, q | p in all && p !in all[..limit] && q in all[..limit] ensures p < q {
      var i := BehindPrefix(all, limit, p);
      var j: nat :| j < limit && all[j] == q;
    }
  }

  lemma BehindPrefix(all: seq<nat>, limit: nat, p: nat) returns (i: nat)
    requires limit <= |all| && p in all && p !in all[..limit]
    ensures limit <= i < |all| && all[i] == p
  {
    i :| i < |all| && all[i] == p;
    if i < limit {
      InPrefix(all, limit, i);
    }
  }
}
