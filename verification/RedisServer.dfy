/**
 How a Redis server reads what is forwarded to it: an array of bulk strings, or else one line of words. Only a
 frame in the server's own form is one command there, with the arguments the proxy inspected.
 */
module RedisServer {
  import opened Wrappers
  import opened Decimal
  import opened RespGrammar
  import opened Streams
  import opened RespParser
  import opened RespTheorems
  import opened RespPrinting
  import opened RedisAuth

  const MAX_ARGUMENTS: nat := 0x7fff_ffff
  const MAX_ARGUMENT: nat := 512 * 1024 * 1024
  const NUL: char := 0 as char

  /** A command with its arguments, and where the next one starts. */
  datatype Request = Request(arguments: seq<string>, next: nat)

  // ----- numbers -------------------------------------------------------------------------------

  /** The one spelling of a natural number: digits without a leading zero. */
  function Plain(text: string): Option<nat> {
    if text == "" || !AllDigits(text) || (|text| > 1 && text[0] == '0') then None else Some(DigitsValue(text))
  }

  /** A whole number in its one spelling. */
  function Whole(text: string): Option<int> {
    if text != "" && text[0] == '-' then
      match Plain(text[1..])
      case None => None
      case Some(n) =>
        if n == 0 then None else Some((-(n as int)) as int)
    else
      match Plain(text)
      case None => None
      case Some(n) => Some(n)
  }

  lemma {:induction false} PlainIff(text: string, n: nat)
    ensures Plain(text) == Some(n) <==> text == Itoa(n)
  {
    ItoaDigits(n);
    ItoaFront(n);
    if Plain(text) == Some(n) {
      ItoaOfDigits(text);
    }
  }

  /** Text that any number is read from has digits and a sign only. */
  lemma AtoiHasNoBreak(text: string)
    requires Atoi(text).Some?
    ensures text != "" && forall i :: 0 <= i < |text| ==> text[i] != '\r' && text[i] != NUL
  {
    var digits := if text[0] == '-' || text[0] == '+' then text[1..] else text;
    assert forall i :: 0 <= i < |digits| ==> IsDigit(digits[i]);
    assert text == digits || text == [text[0]] + digits;
  }

  /** What both readers take for a length, they take for the same one. */
  lemma PlainIsAtoi(text: string, n: int)
    requires Atoi(text) == Some(n)
    ensures Whole(text).Some? && n >= 0 ==> Whole(text) == Some(n) && text == Itoa(n)
    ensures Whole(text).Some? && Whole(text).value >= 0 ==> n >= 0
  {
    hide DigitsValue;
    if Whole(text).Some? && text[0] != '-' {
      assert IsDigit(text[0]);
      PlainIff(text, Plain(text).value);
    }
  }

  // ----- words of a line -----------------------------------------------------------------------

  datatype Quoting = Bare | Double | Single

  predicate IsBreak(c: char) {
    c == ' ' || c == '\n' || c == '\r' || c == '\t'
  }

  predicate IsHex(c: char) {
    IsDigit(c) || 'a' <= c <= 'f' || 'A' <= c <= 'F'
  }

  function HexValue(c: char): (value: nat)
    requires IsHex(c)
    ensures value < 16
  {
    if IsDigit(c) then c as int - '0' as int else if 'a' <= c <= 'f' then c as int - 'a' as int + 10 else c as int - 'A' as int + 10
  }

  function Escaped(c: char): char {
    if c == 'n' then '\n' else if c == 'r' then '\r' else if c == 't' then '\t'
    else if c == 'b' then 8 as char else if c == 'a' then 7 as char else c
  }

  function Prepend(c: char, rest: Option<(string, nat)>): Option<(string, nat)> {
    match rest
    case None => None
    case Some((text, next)) => Some(([c] + text, next))
  }

  /** One word and its end; a quote must be closed, and nothing but white space may follow it. */
  function Word(line: string, pos: nat, quoting: Quoting): (r: Option<(string, nat)>)
    requires pos <= |line|
    ensures r.Some? ==> pos <= r.value.1 <= |line|
    decreases |line| - pos
  {
    if pos == |line| then if quoting == Bare then Some(("", pos)) else None
    else
      var c := line[pos];
      match quoting
      case Bare =>
        if IsBreak(c) then Some(("", pos))
        else if c == '"' then Word(line, pos + 1, Double)
        else if c == '\'' then Word(line, pos + 1, Single)
        else Prepend(c, Word(line, pos + 1, Bare))
      case Double =>
        if c == '\\' && pos + 3 < |line| && line[pos + 1] == 'x' && IsHex(line[pos + 2]) && IsHex(line[pos + 3]) then
          Prepend((HexValue(line[pos + 2]) * 16 + HexValue(line[pos + 3])) as char, Word(line, pos + 4, Double))
        else if c == '\\' && pos + 1 < |line| then Prepend(Escaped(line[pos + 1]), Word(line, pos + 2, Double))
        else if c == '"' then if pos + 1 < |line| && !IsSpace(line[pos + 1]) then None else Some(("", pos + 1))
        else Prepend(c, Word(line, pos + 1, Double))
      case Single =>
        if c == '\\' && pos + 1 < |line| && line[pos + 1] == '\'' then Prepend('\'', Word(line, pos + 2, Single))
        else if c == '\'' then if pos + 1 < |line| && !IsSpace(line[pos + 1]) then None else Some(("", pos + 1))
        else Prepend(c, Word(line, pos + 1, Single))
  }

  /** A character that neither ends a word nor quotes. */
  predicate Literal(c: char) {
    !IsBreak(c) && c != '"' && c != '\''
  }

  lemma WordStarts(line: string, pos: nat)
    requires pos < |line| && Literal(line[pos])
    ensures Word(line, pos, Bare) == Prepend(line[pos], Word(line, pos + 1, Bare))
    ensures var r := Word(line, pos, Bare);
            r.Some? ==> r.value.0 == [line[pos]] + Word(line, pos + 1, Bare).value.0 && r.value.1 == Word(line, pos + 1, Bare).value.1
  {
  }

  lemma WordStops(line: string, pos: nat)
    requires pos <= |line| && (pos == |line| || IsBreak(line[pos]))
    ensures Word(line, pos, Bare) == Some(("", pos))
  {
  }

  lemma WordAdvances(line: string, pos: nat)
    requires pos < |line| && !IsSpace(line[pos]) && Word(line, pos, Bare).Some?
    ensures Word(line, pos, Bare).value.1 > pos
  {
  }

  function Words(line: string, pos: nat): Option<seq<string>>
    requires pos <= |line|
    decreases |line| - pos
  {
    if pos == |line| then Some([])
    else if IsSpace(line[pos]) then Words(line, pos + 1)
    else
      match Word(line, pos, Bare)
      case None => None
      case Some((word, next)) =>
        WordAdvances(line, pos);
        match Words(line, next)
        case None => None
        case Some(rest) => Some([word] + rest)
  }

  // ----- the reader ----------------------------------------------------------------------------

  /** The first such character; a NUL ends the search. */
  function Find(s: string, pos: nat, c: char): (at: nat)
    requires pos <= |s|
    ensures pos <= at <= |s| && (at < |s| ==> s[at] == c)
    decreases |s| - pos
  {
    if pos == |s| then |s| else if s[pos] == c then pos else if s[pos] == NUL then |s| else Find(s, pos + 1, c)
  }

  /** The number behind the first character of a line; the byte behind the carriage return is not looked at. */
  function NumberLine(s: string, pos: nat): (r: Option<(int, nat)>)
    requires pos < |s|
    ensures r.Some? ==> pos < r.value.1 <= |s|
  {
    var end := Find(s, pos, '\r');
    if end + 2 > |s| || end == pos then None
    else
      match Whole(s[pos + 1..end])
      case None => None
      case Some(n) => Some((n, end + 2))
  }

  /** Bulk strings; neither are the two bytes behind one looked at. */
  function Arguments(s: string, pos: nat, count: nat): (r: Option<Request>)
    requires pos <= |s|
    ensures r.Some? ==> |r.value.arguments| == count && pos <= r.value.next <= |s|
    decreases count
  {
    if count == 0 then Some(Request([], pos))
    else if pos == |s| || s[pos] != '$' then None
    else
      match NumberLine(s, pos)
      case None => None
      case Some((length, start)) =>
        if length < 0 || length > MAX_ARGUMENT || |s| - start < length + 2 then None
        else
          match Arguments(s, start + length + 2, count - 1)
          case None => None
          case Some(rest) => Some(Request([s[start..start + length]] + rest.arguments, rest.next))
  }

  /** The next command; None when the server refuses the bytes or waits for more. */
  function ServerRead(s: string, pos: nat): (r: Option<Request>)
    requires pos < |s|
    ensures r.Some? ==> pos < r.value.next <= |s|
  {
    if s[pos] == '*' then
      match NumberLine(s, pos)
      case None => None
      case Some((count, next)) =>
        if count > MAX_ARGUMENTS then None else Arguments(s, next, if count < 0 then 0 else count)
    else
      var end := Find(s, pos, '\n');
      if end == |s| then None
      else
        match Words(if end > pos && s[end - 1] == '\r' then s[pos..end - 1] else s[pos..end], 0)
        case None => None
        case Some(words) => Some(Request(words, end + 1))
  }

  /** All commands that the bytes hold, one after the other. */
  function ServerCommands(s: string, pos: nat): seq<seq<string>>
    requires pos <= |s|
    decreases |s| - pos
  {
    if pos == |s| || ServerRead(s, pos).None? then []
    else [ServerRead(s, pos).value.arguments] + ServerCommands(s, ServerRead(s, pos).value.next)
  }

  // ----- lines that are no arrays --------------------------------------------------------------

  /** Neither white space nor a quote. */
  predicate Ordinary(k: char) {
    !IsSpace(k) && k != '"' && k != '\''
  }

  lemma {:induction false} WordLeads(line: string, pos: nat, n: nat, k: char)
    requires pos + n <= |line| && Ordinary(k) && forall i :: pos <= i < pos + n ==> line[i] == k
    ensures var r := Word(line, pos, Bare);
            r.Some? ==> |r.value.0| >= n && forall i :: 0 <= i < n ==> r.value.0[i] == k
    decreases n
  {
    if n > 0 {
      WordLeads(line, pos + 1, n - 1, k);
    }
  }

  lemma {:induction false} WordEndStops(s: string, pos: nat)
    requires pos <= |s|
    ensures forall i :: pos <= i < WordEnd(s, pos) ==> !IsSpace(s[i])
    ensures WordEnd(s, pos) < |s| ==> IsSpace(s[WordEnd(s, pos)])
    decreases |s| - pos
  {
    if pos < |s| && !IsSpace(s[pos]) {
      WordEndStops(s, pos + 1);
    }
  }

  predicate Spaceless(words: seq<string>) {
    forall i, j :: 0 <= i < |words| && 0 <= j < |words[i]| ==> !IsSpace(words[i][j])
  }

  lemma {:induction false} FieldsAreSpaceless(s: string, pos: nat)
    requires pos <= |s|
    ensures Spaceless(Fields(s, pos))
    decreases |s| - pos
  {
    if pos < |s| {
      if IsSpace(s[pos]) {
        FieldsAreSpaceless(s, pos + 1);
      } else {
        WordEndStops(s, pos);
        FieldsAreSpaceless(s, WordEnd(s, pos));
      }
    }
  }

  lemma {:induction false} WordEndShift(k: char, text: string, pos: nat)
    requires pos <= |text|
    ensures WordEnd([k] + text, pos + 1) == WordEnd(text, pos) + 1
    decreases |text| - pos
  {
    if pos < |text| && !IsSpace(text[pos]) {
      WordEndShift(k, text, pos + 1);
    }
  }

  lemma {:induction false} FieldsShift(k: char, text: string, pos: nat)
    requires pos <= |text|
    ensures Fields([k] + text, pos + 1) == Fields(text, pos)
    decreases |text| - pos
  {
    var line := [k] + text;
    if pos < |text| {
      assert line[pos + 1] == text[pos];
      if IsSpace(text[pos]) {
        FieldsShift(k, text, pos + 1);
      } else {
        WordEndShift(k, text, pos);
        FieldsShift(k, text, WordEnd(text, pos));
        assert line[pos + 1..WordEnd(line, pos + 1)] == text[pos..WordEnd(text, pos)];
      }
    }
  }

  lemma SpacelessDiffers(words: seq<string>, fields: seq<string>)
    requires Spaceless(fields) && words != [] && |words[0]| > 1 && IsSpace(words[0][1])
    ensures words != fields
  {
  }

  lemma LoneWord(line: string, pos: nat)
    requires pos < |line| && !IsSpace(line[pos]) && Literal(line[pos]) && (pos + 1 == |line| || IsBreak(line[pos + 1]))
    ensures Words(line, pos) == match Words(line, pos + 1)
                                case None => None
                                case Some(rest) => Some([[line[pos]]] + rest)
  {
    WordStarts(line, pos);
    WordStops(line, pos + 1);
    assert [line[pos]] + "" == [line[pos]];
  }

  /** A word in front is one word more. */
  lemma {:induction false} OneWordMore(line: string, pos: nat, k: char)
    requires pos <= |line| && Ordinary(k) && Words(line, pos).Some?
    ensures [[k]] + Words(line, pos).value != Fields(line, pos)
    decreases |line| - pos
  {
    if pos == |line| {
    } else if IsSpace(line[pos]) {
      OneWordMore(line, pos + 1, k);
    } else {
      var words, fields, end := Words(line, pos).value, Fields(line, pos), WordEnd(line, pos);
      assert ([[k]] + words)[0] == [k] && ([[k]] + words)[1..] == words;
      assert fields[0] == line[pos..end] && fields[1..] == Fields(line, end);
      if line[pos..end] == [k] {
        assert line[pos] == line[pos..end][0];
        WordStarts(line, pos);
        if end == |line| || IsBreak(line[end]) {
          LoneWord(line, pos);
          OneWordMore(line, end, k);
        } else {
          WordEndStops(line, pos);
          WordStarts(line, end);
          FieldsAreSpaceless(line, end);
          SpacelessDiffers(words, Fields(line, end));
        }
      }
    }
  }

  function Run(text: string, k: char, pos: nat): (end: nat)
    requires pos <= |text|
    ensures pos <= end <= |text| && (forall i :: pos <= i < end ==> text[i] == k) && (end < |text| ==> text[end] != k)
    decreases |text| - pos
  {
    if pos < |text| && text[pos] == k then Run(text, k, pos + 1) else pos
  }

  /** The words of a line are never the fields of what stands behind its first character. */
  lemma WordsDiffer(k: char, text: string)
    requires Ordinary(k)
    ensures Words([k] + text, 0) != Some(Fields(text))
  {
    var line := [k] + text;
    if Words(line, 0).Some? {
      var words, fields, word := Words(line, 0).value, Fields(text), Word(line, 0, Bare).value.0;
      WordStarts(line, 0);
      FieldsAreSpaceless(text, 0);
      if text == "" {
        assert fields == [];
      } else if IsSpace(text[0]) {
        assert line[1] == text[0];
        if IsBreak(text[0]) {
          LoneWord(line, 0);
          FieldsShift(k, text, 0);
          OneWordMore(line, 1, k);
        } else {
          WordStarts(line, 1);
          SpacelessDiffers(words, fields);
        }
      } else {
        FirstFieldDiffers(k, text);
      }
    }
  }

  /** A word that starts with one more `k` than the field. */
  lemma FirstFieldDiffers(k: char, text: string)
    requires Ordinary(k) && text != "" && !IsSpace(text[0]) && Words([k] + text, 0).Some?
    ensures Words([k] + text, 0).value[..1] != Fields(text)[..1]
  {
    var line, m := [k] + text, Run(text, k, 0);
    var word, first := Word(line, 0, Bare).value.0, text[0..WordEnd(text, 0)];
    forall i | 0 <= i < m + 1 ensures line[i] == k {
      assert i > 0 ==> line[i] == text[i - 1];
    }
    WordLeads(line, 0, m + 1, k);
    assert m < |first| ==> first[m] == text[m] != k;
    assert word[m] == k;
    assert Words(line, 0).value[..1] == [word] && Fields(text)[..1] == [first];
    assert [word][0] == word && [first][0] == first;
  }

  lemma FirstWordLeads(k: char, text: string)
    requires Ordinary(k) && Words([k] + text, 0).Some?
    ensures var words := Words([k] + text, 0).value;
            words != [] && words[0] != "" && words[0][0] == k
  {
    WordLeads([k] + text, 0, 1, k);
  }

  lemma {:induction false} FindPlain(s: string, pos: nat, c: char, at: nat)
    requires pos <= at < |s| && s[at] == c && forall i :: pos <= i < at ==> s[i] != c
    ensures Find(s, pos, c) == at || Find(s, pos, c) == |s|
    ensures (forall i :: pos <= i < at ==> s[i] != NUL) ==> Find(s, pos, c) == at
    decreases at - pos
  {
    if pos < at {
      FindPlain(s, pos + 1, c, at);
    }
  }

  /** A frame that is no array is read up to the end of its first line, as words. */
  lemma LineIsWords(raw: string, k: char, text: string)
    requires k != '*' && k != '\n' && OneLine(text) && EncodeLine(k, text) <= raw
    ensures var r := ServerRead(raw, 0);
            r.Some? ==> r.value.next == |text| + 3 && Words([k] + text, 0) == Some(r.value.arguments)
  {
    hide Words;
    var line := EncodeLine(k, text);
    LineStands(raw, k, text);
    FindPlain(raw, 0, '\n', |text| + 2);
  }

  lemma LineStands(raw: string, k: char, text: string)
    requires EncodeLine(k, text) <= raw
    ensures |text| + 3 <= |raw| && raw[0] == k && raw[|text| + 1] == '\r' && raw[|text| + 2] == '\n'
    ensures raw[0..|text| + 1] == [k] + text && raw[1..|text| + 1] == text
    ensures k != '\n' && OneLine(text) ==> forall i :: 0 <= i < |text| + 2 ==> raw[i] != '\n'
  {
    var line := EncodeLine(k, text);
    assert raw[..|line|] == line;
    assert line[0..|text| + 1] == [k] + text && line[1..|text| + 1] == text;
    assert forall i :: 0 <= i < |line| ==> raw[i] == line[i];
  }

  // ----- arrays --------------------------------------------------------------------------------

  predicate Unbroken(text: string) {
    forall i :: 0 <= i < |text| ==> text[i] != '\r' && text[i] != NUL
  }

  lemma NumberAt(s: string, pos: nat, k: char, text: string)
    requires At(s, pos, EncodeLine(k, text)) && k != '\r' && k != NUL && Unbroken(text)
    ensures pos < |s| && s[pos] == k
    ensures NumberLine(s, pos) == if Whole(text).Some? then Some((Whole(text).value, pos + |text| + 3)) else None
  {
    hide Whole;
    var line := EncodeLine(k, text);
    assert s[pos..pos + |line|] == line;
    forall i | 0 <= i < |line| ensures s[pos + i] == line[i] {
      assert s[pos..pos + |line|][i] == line[i];
    }
    var end := pos + |text| + 1;
    assert s[end] == '\r' == line[|text| + 1];
    forall i | pos <= i < end ensures s[i] != '\r' && s[i] != NUL {
      assert s[i] == line[i - pos];
    }
    FindPlain(s, pos, '\r', end);
    SliceOfSlice(s, pos, pos + |line|, 1, |text| + 1);
    assert line[1..|text| + 1] == text;
  }

  lemma DigitsUnbroken(n: nat)
    ensures Unbroken(Itoa(n)) && Whole(Itoa(n)) == Some(n)
  {
    ItoaDigits(n);
    PlainIff(Itoa(n), n);
    assert IsDigit(Itoa(n)[0]);
  }

  /** Bulk strings in definite form are the arguments. */
  lemma {:induction false} ArgumentsStand(s: string, pos: nat, arguments: seq<string>)
    requires At(s, pos, EncodeArguments(arguments)) && forall i :: 0 <= i < |arguments| ==> |arguments[i]| <= MAX_ARGUMENT
    ensures pos <= |s| && Arguments(s, pos, |arguments|) == Some(Request(arguments, pos + |EncodeArguments(arguments)|))
    decreases |arguments|
  {
    hide At, EncodeArguments, EncodeLine, NumberLine, Itoa;
    if arguments == [] {
      EncodeNothing();
      AtWithin(s, pos, "");
    } else {
      var first, rest := arguments[0], arguments[1..];
      assert arguments == [first] + rest;
      EncodeArgumentsStep(first, rest);
      var head, body := EncodeLine('$', Itoa(|first|)), first + CRLF;
      AtConcat(s, pos, head + body, EncodeArguments(rest));
      AtConcat(s, pos, head, body);
      LineLength('$', Itoa(|first|));
      DigitsUnbroken(|first|);
      NumberAt(s, pos, '$', Itoa(|first|));
      BodyStands(s, pos + |head|, first);
      ArgumentsStand(s, pos + |head| + |body|, rest);
    }
  }

  lemma AtWithin(s: string, pos: nat, bytes: string)
    requires At(s, pos, bytes)
    ensures pos + |bytes| <= |s|
  {
  }

  lemma LineLength(k: char, text: string)
    ensures |EncodeLine(k, text)| == |text| + 3
  {
  }

  lemma BodyStands(s: string, start: nat, text: string)
    requires At(s, start, text + CRLF)
    ensures start + |text| + 2 <= |s| && s[start..start + |text|] == text
  {
    SliceOfSlice(s, start, start + |text| + 2, 0, |text|);
    assert (text + CRLF)[0..|text|] == text;
  }

  /** An element that the server takes for a bulk string is one, its length in the one spelling. */
  lemma ElementIsBulk(s: string, pos: nat, item: Node, raw: nat, depth: nat)
    requires At(s, pos, Encode(item)) && Fits(item, raw, depth) && pos < |s| && s[pos] == '$'
    requires NumberLine(s, pos).Some? && NumberLine(s, pos).value.0 >= 0
    ensures item.Bulk? && item == Bulk('$', Itoa(|item.text|), item.text)
    ensures NumberLine(s, pos).value == (|item.text|, pos + |item.length| + 3) && |Encode(item)| == |item.length| + 3 + |item.text| + 2
    ensures At(s, pos + |item.length| + 3, item.text + CRLF)
  {
    hide NumberLine, Whole, Atoi, Itoa;
    FirstCharacter(s, pos, item);
    match item
    case Line(_, _) =>
    case End =>
    case Bulk(kind, length, text) =>
      AtoiHasNoBreak(length);
      AtConcat(s, pos, EncodeLine(kind, length), text + CRLF);
      NumberAt(s, pos, kind, length);
      PlainIsAtoi(length, |text|);
    case Null(kind, length) =>
      AtoiHasNoBreak(length);
      NumberAt(s, pos, kind, length);
      PlainIsAtoi(length, Atoi(length).value);
    case Chunked(chunks, last) =>
      AtConcat(s, pos, EncodeLine('$', "?"), EncodeChunks(chunks, last));
      NumberAt(s, pos, '$', "?");
      QuestionIsNoNumber();
    case Aggregate(_, _, _) =>
    case Streamed(_, _) =>
  }

  lemma QuestionIsNoNumber()
    ensures Whole("?").None?
  {
    assert !IsDigit("?"[0]);
  }

  lemma FirstCharacter(s: string, pos: nat, item: Node)
    requires At(s, pos, Encode(item))
    ensures pos < |s| && s[pos] == (if item.End? then '.' else if item.Chunked? then '$' else item.kind)
  {
    assert s[pos] == s[pos..pos + |Encode(item)|][0];
  }

  /** Elements that the server takes for its arguments are bulk strings in definite form. */
  lemma {:induction false} ElementsAreBulks(s: string, pos: nat, items: seq<Node>, raw: nat, depth: nat)
    requires At(s, pos, EncodeAll(items)) && ItemsFit(items, raw, depth)
    requires pos <= |s| && Arguments(s, pos, |items|).Some?
    ensures var r := Arguments(s, pos, |items|).value;
            && items == DefiniteAll(BulkValues(r.arguments)) && r.next == pos + |EncodeAll(items)|
            && MeaningAll(items) == BulkValues(r.arguments)
    decreases |items|
  {
    hide At, NumberLine, Encode, Itoa, Fits, Definite, Meaning;
    if items != [] {
      var first, rest := items[0], items[1..];
      AtConcat(s, pos, Encode(first), EncodeAll(rest));
      ElementIsBulk(s, pos, first, raw, depth);
      var start := pos + |first.length| + 3;
      BodyStands(s, start, first.text);
      ElementsAreBulks(s, pos + |Encode(first)|, rest, raw + |Encode(first)|, depth);
      var arguments := Arguments(s, pos, |items|).value.arguments;
      assert arguments == [first.text] + arguments[1..];
      BulkOf(first.text);
      assert BulkValues(arguments) == [Value('$', first.text, [])] + BulkValues(arguments[1..]);
      assert DefiniteAll(BulkValues(arguments)) == [first] + rest;
      assert items == [first] + rest;
    }
  }

  lemma BulkOf(text: string)
    ensures var bulk := Value('$', text, []);
            Definite(bulk) == Bulk('$', Itoa(|text|), text) && Meaning(Definite(bulk)) == bulk
  {
    hide Itoa;
  }

  // ----- one command ---------------------------------------------------------------------------

  /** The arguments in the form in which the server takes them. */
  function ServerForm(arguments: seq<string>): string {
    Encode(Definite(CommandValue(arguments)))
  }

  lemma TextsOfBulks(arguments: seq<string>)
    ensures Texts(BulkValues(arguments)) == arguments
  {
    if arguments != [] {
      TextsOfBulks(arguments[1..]);
      assert BulkValues(arguments)[1..] == BulkValues(arguments[1..]);
    }
  }

  lemma NoFields()
    ensures Fields("") == []
  {
  }

  lemma ServerFormIsRead(arguments: seq<string>)
    requires |arguments| <= MAX_ARGUMENTS && forall i :: 0 <= i < |arguments| ==> |arguments[i]| <= MAX_ARGUMENT
    ensures ServerRead(ServerForm(arguments), 0) == Some(Request(arguments, |ServerForm(arguments)|))
  {
    hide At, EncodeArguments, NumberLine, Itoa, Encode, Definite, Arguments;
    var raw, count := ServerForm(arguments), Itoa(|arguments|);
    EncodeWhole(arguments);
    assert At(raw, 0, raw) by {
      WholeStands(raw);
    }
    AtConcat(raw, 0, EncodeLine('*', count), EncodeArguments(arguments));
    DigitsUnbroken(|arguments|);
    NumberAt(raw, 0, '*', count);
    ArgumentsStand(raw, |count| + 3, arguments);
  }

  lemma WholeStands(raw: string)
    ensures At(raw, 0, raw)
  {
    assert raw[0..|raw|] == raw;
  }

  /** An array that the server reads as one command is in the server's form. */
  lemma ArrayReadIsServerForm(node: Node)
    requires Fits(node, 0, 0) && Encode(node)[0] == '*'
    requires ServerRead(Encode(node), 0) == Some(Request(CommandArguments(Meaning(node)), |Encode(node)|))
    ensures Encode(node) == ServerForm(CommandArguments(Meaning(node)))
  {
    hide At, NumberLine, Whole, Atoi, Itoa, Arguments, Definite;
    var raw := Encode(node);
    WholeStands(raw);
    FirstCharacter(raw, 0, node);
    match node
    case Aggregate(kind, count, items) =>
      AtoiHasNoBreak(count);
      AtConcat(raw, 0, EncodeLine('*', count), EncodeAll(items));
      NumberAt(raw, 0, '*', count);
      PlainIsAtoi(count, |items|);
      CountOfItems(raw, count, items);
      ElementsAreBulks(raw, |count| + 3, items, |count| + 3, 1);
      var arguments := Arguments(raw, |count| + 3, |items|).value.arguments;
      TextsOfBulks(arguments);
      NoFields();
      EncodeWhole(arguments);
    case Null(kind, length) =>
      NullArrayIsEmpty(length);
      NullIsNamed();
    case Streamed(kind, items) =>
      AtConcat(raw, 0, EncodeLine('*', "?"), EncodeAll(items) + EncodeLine('.', ""));
      NumberAt(raw, 0, '*', "?");
      QuestionIsNoNumber();
    case Line(_, _) =>
    case Bulk(_, _, _) =>
    case Chunked(_, _) =>
    case End =>
  }

  lemma NullArrayIsEmpty(length: string)
    requires Atoi(length).Some? && Atoi(length).value < 0
    ensures var r := ServerRead(EncodeLine('*', length), 0);
            r.Some? ==> r.value.arguments == []
  {
    hide At, NumberLine, Whole, Atoi;
    var raw := EncodeLine('*', length);
    WholeStands(raw);
    AtoiHasNoBreak(length);
    NumberAt(raw, 0, '*', length);
    PlainIsAtoi(length, Atoi(length).value);
    NoArguments(raw, |length| + 3);
  }

  /** A count that the server reads as negative would stand for no elements. */
  lemma CountOfItems(raw: string, count: string, items: seq<Node>)
    requires Atoi(count) == Some(|items|) && Whole(count).Some?
    ensures Whole(count) == Some(|items|)
  {
    PlainIsAtoi(count, |items|);
  }

  lemma NoArguments(s: string, pos: nat)
    requires pos <= |s|
    ensures Arguments(s, pos, 0) == Some(Request([], pos))
  {
  }

  lemma NullIsNamed()
    ensures Fields("null") == ["null"]
  {
    assert WordEnd("null", 0) == 4;
    assert "null"[0..4] == "null";
  }

  lemma OrdinaryKinds(k: char)
    requires IsLineKind(k) || IsBulkKind(k) || IsArrayKind(k) || IsMapKind(k) || k == '.'
    ensures Ordinary(k) && k != '\n' && k != 'n'
  {
  }

  /** Any other frame is never one command with its arguments. */
  lemma OtherFrameIsNotRead(node: Node)
    requires Fits(node, 0, 0) && Encode(node)[0] != '*'
    ensures ServerRead(Encode(node), 0) != Some(Request(CommandArguments(Meaning(node)), |Encode(node)|))
  {
    hide Words, ServerRead, Atoi, Fields, ItemsFit, StreamFits, ChunksFit;
    var raw := Encode(node);
    NoFields();
    NullIsNamed();
    match node
    case Line(kind, text) =>
      OrdinaryKinds(kind);
      LineIsWords(raw, kind, text);
      WordsDiffer(kind, text);
    case Bulk(kind, length, text) =>
      OrdinaryKinds(kind);
      PrefixOfConcat(EncodeLine(kind, length), text + CRLF);
      LineIsWords(raw, kind, length);
    case Null(kind, length) =>
      OrdinaryKinds(kind);
      LineIsWords(raw, kind, length);
      WordsOfLine(raw, kind, length);
    case Chunked(chunks, last) =>
      OrdinaryKinds('$');
      PrefixOfConcat(EncodeLine('$', "?"), EncodeChunks(chunks, last));
      LineIsWords(raw, '$', "?");
      ChunksAreLong(chunks, last);
    case Aggregate(kind, count, items) =>
      OrdinaryKinds(kind);
      PrefixOfConcat(EncodeLine(kind, count), EncodeAll(items));
      LineIsWords(raw, kind, count);
      WordsOfLine(raw, kind, count);
    case Streamed(kind, items) =>
      OrdinaryKinds(kind);
      PrefixOfConcat(EncodeLine(kind, "?"), EncodeAll(items) + EncodeLine('.', ""));
      LineIsWords(raw, kind, "?");
    case End =>
      OrdinaryKinds('.');
      LineIsWords(raw, '.', "");
      WordsOfLine(raw, '.', "");
  }

  lemma PrefixOfConcat(a: string, b: string)
    ensures a <= a + b
  {
  }

  lemma ChunksAreLong(chunks: seq<Chunk>, last: string)
    ensures |EncodeChunks(chunks, last)| > 0
  {
  }

  lemma WordsOfLine(raw: string, k: char, text: string)
    requires Ordinary(k)
    ensures var words := Words([k] + text, 0);
            words.Some? ==> words.value != [] && words.value[0] != "" && words.value[0][0] == k
  {
    if Words([k] + text, 0).Some? {
      FirstWordLeads(k, text);
    }
  }

  /** The server reads a frame as one command with the arguments the proxy sees exactly when the frame is in the server's form. */
  lemma OneCommandIff(raw: string, v: Value)
    requires ReadValue(raw) == Ok(Parsed(v, |raw|))
    ensures ServerRead(raw, 0) == Some(Request(CommandArguments(v), |raw|)) <==> raw == ServerForm(CommandArguments(v))
  {
    hide ServerRead, Encode, Definite, Fits, Meaning, CommandArguments;
    var node := ParseFrame(raw).value.result;
    FrameAcceptedIff(raw, node, |raw|);
    assert raw == Encode(node);
    if raw == ServerForm(CommandArguments(v)) {
      ServerFormFits(node, CommandArguments(v));
      ServerFormIsRead(CommandArguments(v));
    } else if Encode(node)[0] == '*' {
      if ServerRead(raw, 0) == Some(Request(CommandArguments(v), |raw|)) {
        ArrayReadIsServerForm(node);
      }
    } else {
      OtherFrameIsNotRead(node);
    }
  }

  /** A frame of the proxy in the server's form has arguments within the server's limits. */
  lemma ServerFormFits(node: Node, arguments: seq<string>)
    requires Fits(node, 0, 0) && Encode(node) == ServerForm(arguments)
    ensures |arguments| <= MAX_ARGUMENTS && forall i :: 0 <= i < |arguments| ==> |arguments[i]| <= MAX_ARGUMENT
  {
    hide Encode, Definite, EncodeAll, DefiniteAll;
    NodeBounds(node, 0, 0);
    EncodeWhole(arguments);
    forall i | 0 <= i < |arguments| ensures |arguments[i]| <= MAX_ARGUMENT {
      ArgumentsBelowFrame(arguments, i);
    }
    ArgumentsCount(arguments);
  }

  lemma {:induction false} ArgumentsCount(arguments: seq<string>)
    ensures |arguments| <= |EncodeArguments(arguments)|
  {
    if arguments != [] {
      ArgumentsCount(arguments[1..]);
      EncodeArgumentsStep(arguments[0], arguments[1..]);
      assert arguments == [arguments[0]] + arguments[1..];
    }
  }

  // ----- what is forwarded ---------------------------------------------------------------------

  /** The arguments a forwarded request stands for: those inspected, a HELLO's without its credentials. */
  function SentArguments(request: Frame, options: Options): seq<string> {
    var arguments := CommandArguments(request.value);
    if arguments != [] && Command(request.value) == "HELLO" && HelloOf(arguments, options).Ok? then HelloOf(arguments, options).value.rewritten
    else arguments
  }

  predicate IsOneCommand(forward: string, arguments: seq<string>) {
    forward != "" && ServerRead(forward, 0) == Some(Request(arguments, |forward|))
  }

  /**
   A Redis server reads what is forwarded as one command with the inspected arguments exactly when it is in the
   server's form, an array of bulk strings with plain lengths, as a HELLO always is. Such a command is none
   of AUTH, SELECT and RESET, and if it is a HELLO it has no credentials.
   */
  lemma ForwardedIsOneCommandIff(request: Frame, options: Options, authenticated: bool)
    requires AsRead(request) && Inspect(request, options, authenticated).0.forward != ""
    requires Command(request.value) == "HELLO" ==>
      && |Inspect(request, options, authenticated).0.forward| <= MAX_FRAME
      && |CommandArguments(request.value)| <= MAX_COLLECTION
    ensures var forward, sent := Inspect(request, options, authenticated).0.forward, SentArguments(request, options);
            && (IsOneCommand(forward, sent) <==> forward == ServerForm(sent))
            && (Command(request.value) == "HELLO" ==> forward == ServerForm(sent))
            && (sent != [] ==> Upper(sent[0]) != "AUTH" && Upper(sent[0]) != "SELECT" && Upper(sent[0]) != "RESET")
            && (sent != [] && Upper(sent[0]) == "HELLO" ==> HelloOf(sent, options) == Ok(Hello(sent, false, false)))
  {
    hide Encode, Definite, ValidateListenerAuth, Atoi, CommandArguments, Fields, Upper, ReadValue, ServerRead, Clauses, Itoa;
    var forward, sent := Inspect(request, options, authenticated).0.forward, SentArguments(request, options);
    CommandNeedsArguments(request.value);
    if Command(request.value) == "HELLO" {
      var arguments := CommandArguments(request.value);
      RewrittenHelloIsClean(arguments, options);
      if |arguments| > 1 {
        KeptLength(arguments, 2, false);
      }
      EncodedCommandReadsBack(sent, "");
      assert forward + "" == forward;
      OneCommandIff(forward, CommandValue(sent));
    } else {
      OneCommandIff(forward, request.value);
    }
  }

  // ----- a frame that is read otherwise --------------------------------------------------------

  lemma TextStands(s: string, pos: nat, text: string)
    requires At(s, pos, text + CRLF)
    ensures pos + |text| + 2 <= |s| && s[pos + |text|] == '\r' && s[pos + |text| + 1] == '\n' && s[pos..pos + |text|] == text
    ensures forall i :: pos <= i < pos + |text| ==> s[i] == text[i - pos]
  {
    var line := text + CRLF;
    forall i | 0 <= i < |line| ensures s[pos + i] == line[i] {
      assert s[pos..pos + |line|][i] == line[i];
    }
    forall i | pos <= i < pos + |text| ensures s[i] == text[i - pos] {
      assert s[pos + (i - pos)] == line[i - pos];
    }
    assert s[pos + |text|] == line[|text|] && s[pos + (|text| + 1)] == line[|text| + 1];
    BodyStands(s, pos, text);
  }

  lemma PlainLine(s: string, pos: nat, text: string)
    requires At(s, pos, text + CRLF) && text != "" && text[0] != '*'
    requires forall i :: 0 <= i < |text| ==> text[i] != '\n' && text[i] != NUL
    ensures pos < |s|
    ensures ServerRead(s, pos) == match Words(text, 0)
                                  case None => None
                                  case Some(words) => Some(Request(words, pos + |text| + 2))
  {
    hide Words, At, Find, NumberLine, Arguments;
    TextStands(s, pos, text);
    var end := pos + |text| + 1;
    FindPlain(s, pos, '\n', end);
  }

  lemma {:induction false} OneBareWord(text: string, pos: nat, end: nat)
    requires pos <= end <= |text| && forall i :: pos <= i < end ==> Literal(text[i])
    requires end == |text| || text[end] == ' '
    ensures Word(text, pos, Bare) == Some((text[pos..end], end))
    decreases end - pos
  {
    hide Literal, Word;
    if pos < end {
      WordStarts(text, pos);
      OneBareWord(text, pos + 1, end);
      assert text[pos..end] == [text[pos]] + text[pos + 1..end];
    } else {
      WordStops(text, pos);
      assert text[pos..end] == "";
    }
  }

  /** Words that are fields: no quotes and single spaces. */
  lemma NextBareWord(text: string, pos: nat, end: nat)
    requires pos < end <= |text| && forall i :: pos <= i < end ==> Literal(text[i]) && !IsSpace(text[i])
    requires end == |text| || text[end] == ' '
    ensures Words(text, pos) == match Words(text, end)
                                case None => None
                                case Some(rest) => Some([text[pos..end]] + rest)
  {
    hide Word;
    OneBareWord(text, pos, end);
  }

  lemma NoMoreWords(text: string)
    ensures Words(text, |text|) == Some([])
  {
  }

  /**
   A bulk string whose text has a line of its own: the proxy sees the command X and forwards it, the server reads three
   commands, one of which changes the database.
   */
  lemma BulkIsReadAsLines(options: Options)
    ensures var raw := "$11\r\nX\r\nSELECT 5\r\n";
            var request := Frame(raw, Value('$', "X\r\nSELECT 5", []));
            && AsRead(request) && Command(request.value) == "X" && Inspect(request, options, true).0.forward == raw
            && ServerCommands(raw, 0) == [["$11"], ["X"], ["SELECT", "5"]]
  {
    hide ServerCommands, ReadValue, Fields, Encode, Definite, HelloOf, ValidateListenerAuth, Atoi, Itoa, Upper;
    var raw, text := "$11\r\nX\r\nSELECT 5\r\n", "X\r\nSELECT 5";
    ElevenReads(raw, text);
    FirstField(text);
    ThreeLines(raw);
  }

  lemma ThreeLines(raw: string)
    requires raw == "$11\r\nX\r\nSELECT 5\r\n"
    ensures ServerCommands(raw, 0) == [["$11"], ["X"], ["SELECT", "5"]]
  {
    hide ServerRead, Words, ServerCommands;
    assert raw[0..5] == "$11" + CRLF && raw[5..8] == "X" + CRLF && raw[8..18] == "SELECT 5" + CRLF;
    PlainLine(raw, 0, "$11");
    PlainLine(raw, 5, "X");
    PlainLine(raw, 8, "SELECT 5");
    NextBareWord("$11", 0, 3);
    NoMoreWords("$11");
    NextBareWord("X", 0, 1);
    NoMoreWords("X");
    assert "$11"[0..3] == "$11" && "X"[0..1] == "X";
    assert Words("$11", 0) == Some(["$11"]) && Words("X", 0) == Some(["X"]) by {
      NothingMore("$11");
      NothingMore("X");
    }
    SelectWords();
    ThreeCommands(raw);
  }

  lemma ThreeCommands(raw: string)
    requires |raw| == 18 && ServerRead(raw, 0) == Some(Request(["$11"], 5))
    requires ServerRead(raw, 5) == Some(Request(["X"], 8)) && ServerRead(raw, 8) == Some(Request(["SELECT", "5"], 18))
    ensures ServerCommands(raw, 0) == [["$11"], ["X"], ["SELECT", "5"]]
  {
    hide ServerRead;
    assert ServerCommands(raw, 18) == [];
    assert ServerCommands(raw, 8) == [["SELECT", "5"]] + ServerCommands(raw, 18);
    assert ServerCommands(raw, 5) == [["X"]] + ServerCommands(raw, 8);
  }

  lemma SelectWords()
    ensures Words("SELECT 5", 0) == Some(["SELECT", "5"])
  {
    hide Words;
    var text := "SELECT 5";
    NextBareWord(text, 0, 6);
    SpaceSkipped(text, 6);
    NextBareWord(text, 7, 8);
    NoMoreWords(text);
    assert text[0..6] == "SELECT" && text[7..8] == "5";
    NothingMore("5");
    assert ["SELECT"] + ["5"] == ["SELECT", "5"];
  }

  lemma NothingMore(word: string)
    ensures [word] + [] == [word]
  {
  }

  lemma SpaceSkipped(text: string, pos: nat)
    requires pos < |text| && IsSpace(text[pos])
    ensures Words(text, pos) == Words(text, pos + 1)
  {
  }

  lemma FirstField(text: string)
    requires text == "X\r\nSELECT 5"
    ensures Fields(text) != [] && Fields(text)[0] == "X" && Upper("X") == "X"
  {
    assert WordEnd(text, 0) == 1 && text[0..1] == "X";
    assert "X"[1..] == "" && Upper("") == "";
  }

  lemma ElevenReads(raw: string, text: string)
    requires |text| == 11 && raw == "$11\r\n" + (text + CRLF)
    ensures ReadValue(raw) == Ok(Parsed(Value('$', text, []), |raw|))
  {
    var node := Bulk('$', "11", text);
    ItoaEleven();
    AtoiItoa(11);
    assert EncodeLine('$', "11") == "$11\r\n";
    assert Encode(node) == raw;
    assert Fits(node, 0, 0);
    FrameAcceptedIff(raw, node, |raw|);
  }

  lemma ItoaEleven()
    ensures Itoa(11) == "11"
  {
    assert Itoa(1) == "1";
    assert Itoa(11) == Itoa(1) + [Digit(1)];
  }
}
