/** What the journal file holds, line by line, and how long it is after any number of records. */
module JournalFile {
  import opened Wrappers
  import opened Journal

  // ----- lines and items -----------------------------------------------------------------------

  /** One line for each item, in order. */
  predicate AreLinesOf(c: Codec, items: seq<Interaction>, lines: seq<string>) {
    |lines| == |items| && forall i :: 0 <= i < |items| ==> c.encode(items[i]) == Some(lines[i])
  }

  lemma {:induction false} EncodedIff(c: Codec, items: seq<Interaction>, lines: seq<string>)
    ensures Encoded(c, items) == Some(lines) <==> AreLinesOf(c, items, lines)
  {
    if items != [] && lines != [] {
      var front, last := lines[..|lines| - 1], lines[|lines| - 1];
      EncodedIff(c, items[..|items| - 1], front);
      assert lines == front + [last];
    }
  }

  lemma {:induction false} EncodedExists(c: Codec, items: seq<Interaction>)
    ensures Encoded(c, items).Some? <==> AllEncodable(c, items)
  {
    if items != [] {
      EncodedExists(c, items[..|items| - 1]);
    }
  }

  /** The records of a file are what its lines read back as, in order; a line that is no record is passed over. */
  lemma {:induction false} DecodedIsExact(c: Codec, lines: seq<string>) returns (positions: seq<nat>)
    ensures |positions| == |Decoded(c, lines)|
    ensures forall k :: 0 <= k < |positions| ==> positions[k] < |lines| && c.decode(lines[positions[k]]) == Some(Decoded(c, lines)[k])
    ensures forall j, k :: 0 <= j < k < |positions| ==> positions[j] < positions[k]
    ensures forall p :: 0 <= p < |lines| ==> (p in positions <==> c.decode(lines[p]).Some?)
  {
    if lines == [] {
      positions := [];
    } else {
      var n := |lines| - 1;
      var before := DecodedIsExact(c, lines[..n]);
      positions := before + (if c.decode(lines[n]).Some? then [n as nat] else []);
    }
  }

  /** The newest items of a sequence, in order. */
  predicate NewestOf(all: seq<Interaction>, n: nat, newest: seq<Interaction>) {
    && |newest| == (if |all| < n then |all| else n)
    && forall i :: 0 <= i < |newest| ==> newest[i] == all[|all| - |newest| + i]
  }

  lemma LastIsNewest(all: seq<Interaction>, n: nat)
    ensures NewestOf(all, n, Last(all, n))
  {
    var newest := Last(all, n);
    if |all| > n {
      assert newest == all[|all| - n..];
    } else {
      assert newest == all;
    }
  }

  // ----- one step ------------------------------------------------------------------------------

  /** A compaction falls due when the ring is full and a quarter of it, but at least one record, was written since the last. */
  predicate FallsDue(items: nat, writes: nat, max: nat) {
    items == max && writes >= 1 && 4 * writes >= max - 3
  }

  lemma QuarterOf(max: nat, writes: nat)
    ensures writes >= Quarter(max) <==> writes >= 1 && 4 * writes >= max - 3
  {
  }

  /** A record: the ring loses its oldest item for it, the file gains its line or becomes the lines of the ring. */
  lemma RecordInFull(c: Codec, s: State, item: Interaction, max: nat, disk: Disk)
    requires max >= 1
    ensures var r := Recorded(c, s, item, max, disk);
            var due := FallsDue(|r.items|, s.writes + 1, max);
            var line := c.encode(item);
            && NewestOf(s.items + [item], max, r.items)
            && r.writes == (if due then 0 else s.writes + 1)
            && (if due && disk.rewrite && AllEncodable(c, r.items) then r.file.Some? && AreLinesOf(c, r.items, r.file.value)
                else r.file == if line.Some? && disk.append then Some(Lines(s) + [line.value]) else s.file)
  {
    hide Encoded, AllEncodable, AreLinesOf, Quarter, NewestOf, Last;
    LastIsNewest(s.items + [item], max);
    var grown := Appended(c, s, item, max, disk);
    QuarterOf(max, s.writes + 1);
    EncodedExists(c, grown.items);
    if Encoded(c, grown.items).Some? {
      EncodedIff(c, grown.items, Encoded(c, grown.items).value);
    }
  }

  /** Opening: what the lines hold, or the newest of it in a file that then holds just that. */
  lemma OpenInFull(c: Codec, file: Option<seq<string>>, max: int, disk: Disk)
    ensures var r := Opened(c, file, max, disk);
            if max < 1 then r == Err(BadRetention)
            else if file.None? then r == Ok(State([], 0, None))
            else if exists i :: 0 <= i < |file.value| && |file.value[i]| >= 2 * 1024 * 1024 then r == Err(LineTooLong)
            else
              var loaded := Decoded(c, file.value);
              if |loaded| <= max then r == Ok(State(loaded, 0, file))
              else if r.Err? then r == Err(NotCompacted) && (!disk.rewrite || !AllEncodable(c, Last(loaded, max)))
              else
                && disk.rewrite && r.value.writes == 0 && NewestOf(loaded, max, r.value.items)
                && r.value.file.Some? && AreLinesOf(c, r.value.items, r.value.file.value)
  {
    hide Encoded, AllEncodable, AreLinesOf, Decoded;
    if max >= 1 && file.Some? {
      TooLong(file.value);
      var items := Last(Decoded(c, file.value), max);
      EncodedExists(c, items);
      if Encoded(c, items).Some? {
        EncodedIff(c, items, Encoded(c, items).value);
      }
    }
  }

  lemma TooLong(lines: seq<string>)
    ensures Readable(lines) <==> !exists i :: 0 <= i < |lines| && |lines[i]| >= 2 * 1024 * 1024
  {
  }

  // ----- many records --------------------------------------------------------------------------

  function RecordAll(c: Codec, s: State, items: seq<Interaction>, max: nat): State {
    if items == [] then s
    else Recorded(c, RecordAll(c, s, items[..|items| - 1], max), items[|items| - 1], max, HEALTHY)
  }

  /** How many records after an opening or a clear the first compaction comes: when the ring is full, and a period is over. */
  function FirstCompaction(items: nat, max: nat): nat
    requires items <= max
  {
    if max - items < Period(max) then Period(max) else max - items
  }

  function Period(max: nat): nat {
    if max < 4 then 1 else max / 4
  }

  lemma PeriodPositive(max: nat)
    ensures Period(max) >= 1
  {
  }

  lemma PeriodIs(items: nat, max: nat, writes: nat)
    requires max >= 1
    ensures FallsDue(items, writes, max) <==> items == max && writes >= Period(max)
  {
  }

  lemma {:induction false} RecordAllKeeps(c: Codec, s: State, items: seq<Interaction>, max: nat)
    requires max >= 1 && |s.items| <= max && AllEncodable(c, s.items) && AllEncodable(c, items)
    ensures var r := RecordAll(c, s, items, max);
            AllEncodable(c, r.items) && |r.items| == if |s.items| + |items| < max then |s.items| + |items| else max
  {
    hide Recorded;
    if items != [] {
      var before, last := items[..|items| - 1], items[|items| - 1];
      RecordAllKeeps(c, s, before, max);
      var middle := RecordAll(c, s, before, max);
      RecordInFull(c, middle, last, max, HEALTHY);
      assert AllEncodable(c, middle.items + [last]);
    }
  }

  lemma NextRemainder(n: nat, period: nat)
    requires period >= 1
    ensures (n + 1) % period == if n % period + 1 == period then 0 else n % period + 1
  {
    var k, r := n / period, n % period;
    assert n == k * period + r;
    if r + 1 == period {
      assert n + 1 == (k + 1) * period + 0;
      RemainderOf(n + 1, k + 1, period, 0);
    } else {
      RemainderOf(n + 1, k, period, r + 1);
    }
  }

  lemma RemainderOf(n: nat, k: nat, period: nat, r: nat)
    requires n == k * period + r && r < period
    ensures n % period == r
  {
    var q := n / period;
    assert n == q * period + n % period;
    if q < k {
      NextMultiple(q, k, period);
    }
    if q > k {
      NextMultiple(k, q, period);
    }
  }

  lemma NextMultiple(a: nat, b: nat, period: nat)
    requires a < b
    ensures a * period + period <= b * period
  {
    assert (a + 1) * period <= b * period;
  }

  /** One more record. */
  lemma LengthStep(c: Codec, s: State, item: Interaction, max: nat)
    requires max >= 1 && AllEncodable(c, s.items) && c.encode(item).Some?
    ensures var r := Recorded(c, s, item, max, HEALTHY);
            if |r.items| == max && s.writes + 1 >= Period(max) then |Lines(r)| == max && r.writes == 0
            else |Lines(r)| == |Lines(s)| + 1 && r.writes == s.writes + 1
  {
    hide Recorded, NewestOf, FallsDue, Period;
    var r := Recorded(c, s, item, max, HEALTHY);
    RecordInFull(c, s, item, max, HEALTHY);
    PeriodIs(|r.items|, max, s.writes + 1);
    RingEncodable(c, s, item, max);
  }

  lemma RingEncodable(c: Codec, s: State, item: Interaction, max: nat)
    requires max >= 1 && AllEncodable(c, s.items) && c.encode(item).Some?
    ensures AllEncodable(c, Recorded(c, s, item, max, HEALTHY).items)
  {
    hide Recorded;
    RecordInFull(c, s, item, max, HEALTHY);
    assert AllEncodable(c, s.items + [item]);
  }

  /**
   From any state that an opening or a clear leaves: every record adds a line until the first compaction; from then on the file holds
   the ring and the records since the last compaction, of which there is one in every period.
   */
  lemma {:induction false} JournalLength(c: Codec, s: State, items: seq<Interaction>, max: nat)
    requires max >= 1 && s.writes == 0 && |s.items| <= max && AllEncodable(c, s.items) && AllEncodable(c, items)
    ensures var r, n, first := RecordAll(c, s, items, max), |items|, FirstCompaction(|s.items|, max);
            if n < first then |Lines(r)| == |Lines(s)| + n && r.writes == n
            else |Lines(r)| == max + (n - first) % Period(max) && r.writes == (n - first) % Period(max)
  {
    hide Recorded, Period, Lines;
    PeriodPositive(max);
    if items != [] {
      var before, last := items[..|items| - 1], items[|items| - 1];
      JournalLength(c, s, before, max);
      RecordAllKeeps(c, s, before, max);
      RecordAllKeeps(c, s, items, max);
      var middle, n, first := RecordAll(c, s, before, max), |before|, FirstCompaction(|s.items|, max);
      LengthStep(c, middle, last, max);
      if n >= first {
        NextRemainder(n - first, Period(max));
      }
    }
  }

  /** After a clear: one line a record until the ring is full, then the ring and what follows its last compaction. */
  lemma LengthAfterClear(c: Codec, s: State, items: seq<Interaction>, max: nat)
    requires max >= 1 && AllEncodable(c, items)
    ensures var n, length := |items|, |Lines(RecordAll(c, Cleared(s, HEALTHY), items, max))|;
            length == if n < max then n else max + (n - max) % Period(max)
    ensures var failed := Cleared(s, Disk(true, false)); failed.items == [] && failed.writes == 0 && failed.file == s.file
  {
    JournalLength(c, Cleared(s, HEALTHY), items, max);
  }

  /** After opening a file of fitting lines, none of which is skipped. */
  lemma LengthAfterOpening(c: Codec, file: Option<seq<string>>, items: seq<Interaction>, max: nat)
    requires Lawful(c) && Opened(c, file, max, HEALTHY).Ok? && AllEncodable(c, items)
    ensures var s, n := Opened(c, file, max, HEALTHY).value, |items|;
            max >= 1 && |s.items| <= max &&
            |Lines(RecordAll(c, s, items, max))| ==
              var first := FirstCompaction(|s.items|, max);
              if n < first then |Lines(s)| + n else max + (n - first) % Period(max)
  {
    hide Lawful, RecordAll, Period, FirstCompaction;
    OpenSound(c, file, max);
    OpenInFull(c, file, max, HEALTHY);
    JournalLength(c, Opened(c, file, max, HEALTHY).value, items, max);
  }
}
