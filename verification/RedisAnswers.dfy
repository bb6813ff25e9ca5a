/** Which answer each kind of request gets, spelled out: the texts, the conditions, and what is forwarded. */
module RedisAnswers {
  import opened Wrappers
  import opened Decimal
  import opened RespGrammar
  import opened RespPrinting
  import opened RedisAuth

  // ----- names ---------------------------------------------------------------------------------

  /** The name in capitals, or in any other case. */
  predicate SameLetters(text: string, name: string) {
    |text| == |name| && forall i :: 0 <= i < |name| ==> text[i] == name[i] || text[i] as int == name[i] as int + 32
  }

  predicate Capitals(name: string) {
    forall i :: 0 <= i < |name| ==> 'A' <= name[i] <= 'Z'
  }

  lemma {:induction false} UpperIff(text: string, name: string)
    requires Capitals(name)
    ensures Upper(text) == name <==> SameLetters(text, name)
    decreases |text|
  {
    if text != "" && name != "" {
      var rest := name[1..];
      assert forall i :: 0 <= i < |rest| ==> rest[i] == name[i + 1];
      UpperIff(text[1..], rest);
      assert Upper(text)[0] == UpperChar(text[0]) && Upper(text)[1..] == Upper(text[1..]);
      assert Upper(text) == name <==> UpperChar(text[0]) == name[0] && Upper(text[1..]) == rest by {
        assert name == [name[0]] + rest;
      }
      if SameLetters(text, name) {
        assert forall i :: 0 <= i < |rest| ==> text[1..][i] == text[i + 1];
      }
      if SameLetters(text[1..], rest) && UpperChar(text[0]) == name[0] {
        assert forall i :: 1 <= i < |name| ==> text[i] == text[1..][i - 1] && name[i] == rest[i - 1];
      }
    }
  }

  // ----- arguments -----------------------------------------------------------------------------

  /** Tab, the three line separators, carriage return and space. */
  predicate Blank(c: char) {
    (c as int) in {9, 10, 11, 12, 13, 32}
  }

  predicate AllBlank(text: string) {
    forall i :: 0 <= i < |text| ==> Blank(text[i])
  }

  predicate IsWord(text: string) {
    text != "" && forall i :: 0 <= i < |text| ==> !Blank(text[i])
  }

  /** Words with a gap before each of them and one behind the last. */
  function Laid(words: seq<string>, gaps: seq<string>): string
    requires |gaps| == |words| + 1
  {
    if words == [] then gaps[0] else gaps[0] + words[0] + Laid(words[1..], gaps[1..])
  }

  /** Only the first and the last gap may be empty. */
  predicate LaidOut(text: string, words: seq<string>, gaps: seq<string>) {
    && |gaps| == |words| + 1 && text == Laid(words, gaps)
    && (forall i :: 0 <= i < |words| ==> IsWord(words[i])) && (forall i :: 0 <= i < |gaps| ==> AllBlank(gaps[i]))
    && (forall i :: 1 <= i < |words| ==> gaps[i] != "")
  }

  lemma BlankIff(c: char)
    ensures IsSpace(c) <==> Blank(c)
  {
  }

  lemma {:induction false} WordEndIs(s: string, pos: nat, end: nat)
    requires pos <= end <= |s| && (forall i :: pos <= i < end ==> !Blank(s[i])) && (end < |s| ==> Blank(s[end]))
    ensures WordEnd(s, pos) == end
    decreases end - pos
  {
    if pos < |s| {
      BlankIff(s[pos]);
    }
    if pos < end {
      WordEndIs(s, pos + 1, end);
    }
  }

  lemma {:induction false} WordEndStops(s: string, pos: nat)
    requires pos <= |s|
    ensures var end := WordEnd(s, pos); (forall i :: pos <= i < end ==> !Blank(s[i])) && (end < |s| ==> Blank(s[end]))
    decreases |s| - pos
  {
    if pos < |s| {
      BlankIff(s[pos]);
      if !IsSpace(s[pos]) {
        WordEndStops(s, pos + 1);
      }
    }
  }

  lemma {:induction false} FieldsLaid(s: string, pos: nat) returns (gaps: seq<string>)
    requires pos <= |s|
    ensures LaidOut(s[pos..], Fields(s, pos), gaps) && (pos < |s| && Blank(s[pos]) ==> gaps[0] != "")
    decreases |s| - pos
  {
    hide WordEnd, Blank, IsSpace;
    if pos == |s| {
      gaps := [""];
    } else {
      BlankIff(s[pos]);
      if IsSpace(s[pos]) {
        var rest := FieldsLaid(s, pos + 1);
        gaps := [[s[pos]] + rest[0]] + rest[1..];
        assert s[pos..] == [s[pos]] + s[pos + 1..];
        LongerGap(Fields(s, pos + 1), rest, s[pos]);
      } else {
        var end := WordEnd(s, pos);
        WordEndStops(s, pos);
        var rest := FieldsLaid(s, end);
        gaps := [""] + rest;
        NoWordsAtEnd(s);
        assert s[pos..] == s[pos..end] + s[end..];
        WordInFront(s[pos..end], s[end..], Fields(s, end), rest);
      }
    }
  }

  lemma WordInFront(word: string, text: string, words: seq<string>, gaps: seq<string>)
    requires IsWord(word) && LaidOut(text, words, gaps) && (words != [] ==> gaps[0] != "")
    ensures LaidOut(word + text, [word] + words, [""] + gaps)
  {
    hide IsWord, AllBlank;
    var more, wider := [word] + words, [""] + gaps;
    assert more[1..] == words && wider[1..] == gaps && "" + word + text == word + text;
    assert AllBlank("") by {
      NothingIsBlank();
    }
    assert forall i :: 1 <= i < |more| ==> more[i] == words[i - 1] && wider[i] == gaps[i - 1];
  }

  lemma NothingIsBlank()
    ensures AllBlank("")
  {
  }

  lemma NoWordsAtEnd(s: string)
    ensures Fields(s, |s|) == []
  {
  }

  lemma LongerGap(words: seq<string>, gaps: seq<string>, c: char)
    requires |gaps| == |words| + 1
    ensures Laid(words, [[c] + gaps[0]] + gaps[1..]) == [c] + Laid(words, gaps)
  {
    var longer := [[c] + gaps[0]] + gaps[1..];
    assert longer[1..] == gaps[1..];
    if words != [] {
      assert [c] + gaps[0] + words[0] + Laid(words[1..], gaps[1..]) == [c] + (gaps[0] + words[0] + Laid(words[1..], gaps[1..]));
    }
  }

  lemma LaidFirst(words: seq<string>, gaps: seq<string>)
    requires |gaps| == |words| + 1 && gaps[0] != ""
    ensures Laid(words, gaps) != "" && Laid(words, gaps)[0] == gaps[0][0]
  {
  }

  lemma {:induction false} LaidFields(s: string, pos: nat, words: seq<string>, gaps: seq<string>)
    requires pos <= |s| && LaidOut(s[pos..], words, gaps)
    ensures Fields(s, pos) == words
    decreases |s| - pos, |gaps[0]|
  {
    hide WordEnd, Blank, IsSpace;
    var text := s[pos..];
    if gaps[0] != "" {
      LaidFirst(words, gaps);
      assert text[0] == s[pos];
      BlankIff(s[pos]);
      var shorter := [gaps[0][1..]] + gaps[1..];
      assert [s[pos]] + gaps[0][1..] == gaps[0];
      assert shorter[1..] == gaps[1..];
      assert [[s[pos]] + shorter[0]] + shorter[1..] == [gaps[0]] + gaps[1..] == gaps;
      LongerGap(words, shorter, s[pos]);
      assert s[pos + 1..] == text[1..] == Laid(words, shorter);
      LaidFields(s, pos + 1, words, shorter);
    } else if words != [] {
      var word, rest := words[0], Laid(words[1..], gaps[1..]);
      var end := pos + |word|;
      assert text == word + rest;
      assert s[pos..end] == text[..|word|] == word && s[end..] == text[|word|..] == rest;
      assert forall i :: pos <= i < end ==> s[i] == word[i - pos];
      BlankIff(s[pos]);
      if end < |s| {
        StartsBlank(words[1..], gaps[1..]);
        assert s[end] == rest[0];
      }
      WordEndIs(s, pos, end);
      LaidFields(s, end, words[1..], gaps[1..]);
    }
  }

  lemma StartsBlank(words: seq<string>, gaps: seq<string>)
    requires |gaps| == |words| + 1 && AllBlank(gaps[0]) && (words != [] ==> gaps[0] != "")
    ensures Laid(words, gaps) != "" ==> Blank(Laid(words, gaps)[0])
  {
    hide Blank;
  }

  /** The words of a request that is no array are those between its blanks. */
  lemma FieldsIff(text: string, words: seq<string>)
    ensures Fields(text) == words <==> exists gaps :: LaidOut(text, words, gaps)
  {
    hide Fields, LaidOut;
    assert text[0..] == text;
    if Fields(text) == words {
      var gaps := FieldsLaid(text, 0);
    }
    if exists gaps :: LaidOut(text, words, gaps) {
      var gaps :| LaidOut(text, words, gaps);
      LaidFields(text, 0, words, gaps);
    }
  }

  /** The arguments are the elements' texts or, without elements, the words; the operation shown is the first one in capitals. */
  lemma {:induction false} ArgumentsOf(v: Value)
    ensures v.items != [] ==> |CommandArguments(v)| == |v.items| && forall i :: 0 <= i < |v.items| ==> CommandArguments(v)[i] == v.items[i].text
    ensures v.items == [] ==> exists gaps :: LaidOut(v.text, CommandArguments(v), gaps)
    ensures CommandArguments(v) == [] ==> Command(v) == "UNKNOWN"
    ensures CommandArguments(v) != [] ==> InCapitals(CommandArguments(v)[0], Command(v))
  {
    hide LaidOut, Fields, Upper;
    TextsOf(v.items);
    if v.items == [] {
      FieldsIff(v.text, CommandArguments(v));
    }
    if CommandArguments(v) != [] {
      UpperIs(CommandArguments(v)[0]);
    }
  }

  predicate InCapitals(text: string, capitals: string) {
    |capitals| == |text| && forall i :: 0 <= i < |text| ==>
      capitals[i] as int == if 'a' <= text[i] <= 'z' then text[i] as int - 32 else text[i] as int
  }

  lemma {:induction false} UpperIs(text: string)
    ensures InCapitals(text, Upper(text))
  {
    if text != "" {
      UpperIs(text[1..]);
      assert forall i :: 1 <= i < |text| ==> text[i] == text[1..][i - 1] && Upper(text)[i] == Upper(text[1..])[i - 1];
    }
  }

  lemma {:induction false} TextsOf(items: seq<Value>)
    ensures forall i :: 0 <= i < |items| ==> Texts(items)[i] == items[i].text
  {
    if items != [] {
      TextsOf(items[1..]);
      assert forall i :: 1 <= i < |items| ==> Texts(items)[i] == Texts(items[1..])[i - 1] && items[i] == items[1..][i - 1];
    }
  }

  predicate Named(request: Frame, name: string) {
    var arguments := CommandArguments(request.value);
    arguments != [] && SameLetters(arguments[0], name)
  }

  /** The four commands that are not simply forwarded. */
  lemma NamesIff(request: Frame)
    ensures Command(request.value) == "AUTH" <==> Named(request, "AUTH")
    ensures Command(request.value) == "HELLO" <==> Named(request, "HELLO")
    ensures Command(request.value) == "SELECT" <==> Named(request, "SELECT")
    ensures Command(request.value) == "RESET" <==> Named(request, "RESET")
  {
    hide CommandArguments, Upper, SameLetters;
    var arguments := CommandArguments(request.value);
    if arguments != [] {
      UpperIff(arguments[0], "AUTH");
      UpperIff(arguments[0], "HELLO");
      UpperIff(arguments[0], "SELECT");
      UpperIff(arguments[0], "RESET");
    }
  }

  // ----- credentials ---------------------------------------------------------------------------

  /** A user and password, or a password for the user that needs no name. */
  predicate RightPair(user: string, password: string, options: Options) {
    && options.listenerPassword != "" && password == options.listenerPassword
    && (if options.listenerUsername == "" then user == "default" else user == options.listenerUsername)
  }

  /** AUTH: the listener's own credentials are welcome, others are wrong, and anything else is an error. */
  lemma AuthAnswered(request: Frame, options: Options, authenticated: bool)
    requires Named(request, "AUTH")
    ensures var arguments, (item, next) := CommandArguments(request.value), Inspect(request, options, authenticated);
            var right := || (|arguments| == 2 && RightPair("default", arguments[1], options))
                         || (|arguments| == 3 && RightPair(arguments[1], arguments[2], options));
            && item.forward == "" && item.redacted && next == (authenticated || right)
            && (item.local == "+OK\r\n" <==> right)
            && (options.listenerPassword != "" && (|arguments| == 2 || |arguments| == 3) && !right ==>
                item.local == "-WRONGPASS invalid username-password pair or user is disabled.\r\n")
            && (options.listenerPassword == "" ==>
                item.local == "-ERR " + "AUTH called without a password configured for the Portscope listener" + "\r\n")
            && (options.listenerPassword != "" && |arguments| != 2 && |arguments| != 3 ==>
                item.local == "-ERR " + "wrong number of arguments for 'auth' command" + "\r\n")
  {
    hide CommandArguments, SameLetters, Command, Atoi, HelloOf, Itoa, ValidateListenerAuth, RightPair, ErrorReply;
    NamesIff(request);
    var arguments := CommandArguments(request.value);
    Validated(arguments, options);
    match ValidateListenerAuth(arguments, options)
    case Err(message) => TextsDiffer(message);
    case Ok(_) => TextsDiffer("");
  }

  lemma TextsDiffer(message: string)
    ensures OK_REPLY != WRONG_PASS
    ensures ErrorReply(message) != OK_REPLY && ErrorReply(message) == "-ERR " + message + "\r\n"
  {
  }

  lemma Validated(arguments: seq<string>, options: Options)
    ensures var right := || (|arguments| == 2 && RightPair("default", arguments[1], options))
                         || (|arguments| == 3 && RightPair(arguments[1], arguments[2], options));
            if options.listenerPassword != "" && (|arguments| == 2 || |arguments| == 3) then
              ValidateListenerAuth(arguments, options) == Ok(right)
            else
              && !right
              && ValidateListenerAuth(arguments, options) ==
                 Err(if options.listenerPassword == "" then "AUTH called without a password configured for the Portscope listener"
                     else "wrong number of arguments for 'auth' command")
  {
  }

  /** SELECT: welcome exactly for the database the listener is pinned to, in any spelling of its number. */
  lemma SelectAnswered(request: Frame, options: Options)
    requires Named(request, "SELECT")
    ensures var arguments, (item, next) := CommandArguments(request.value), Inspect(request, options, true);
            && item.forward == "" && next && !item.redacted
            && (item.local == "+OK\r\n" <==>
                |arguments| == 2 && Spells(arguments[1], options.database) && options.database <= 0x7fff_ffff_ffff_ffff)
            && (|arguments| != 2 ==> item.local == "-ERR " + "wrong number of arguments for 'select' command" + "\r\n")
            && (|arguments| == 2 && item.local != "+OK\r\n" ==>
                item.local == "-ERR " + ("Portscope listener is pinned to Redis database " + Itoa(options.database)) + "\r\n")
  {
    hide CommandArguments, SameLetters, Command, Atoi, HelloOf, ValidateListenerAuth, Itoa, Spells;
    NamesIff(request);
    var arguments := CommandArguments(request.value);
    if |arguments| == 2 {
      AtoiIff(arguments[1], options.database);
    }
  }

  /** RESET is refused. */
  lemma ResetAnswered(request: Frame, options: Options)
    requires Named(request, "RESET")
    ensures var (item, next) := Inspect(request, options, true);
            && item.forward == "" && next && !item.redacted
            && item.local == "-ERR " + "RESET is disabled because Portscope owns the upstream authentication and database state" + "\r\n"
  {
    hide CommandArguments, SameLetters, Command, Atoi, HelloOf, ValidateListenerAuth, Itoa;
    NamesIff(request);
  }

  /** Without authentication everything but AUTH and HELLO is turned away. */
  lemma Unauthenticated(request: Frame, options: Options)
    requires !Named(request, "AUTH") && !Named(request, "HELLO")
    ensures Inspect(request, options, false)
         == (Decision(Command(request.value), false, "", "-NOAUTH Authentication required.\r\n"), false)
  {
    hide CommandArguments, SameLetters, Command, Atoi, HelloOf, ValidateListenerAuth, Itoa;
    NamesIff(request);
  }

  /** With it, everything but the four commands goes upstream byte for byte. */
  lemma OthersForwarded(request: Frame, options: Options)
    requires !Named(request, "AUTH") && !Named(request, "HELLO") && !Named(request, "SELECT") && !Named(request, "RESET")
    ensures Inspect(request, options, true) == (Decision(Command(request.value), false, request.raw, ""), true)
  {
    hide CommandArguments, SameLetters, Command, Atoi, HelloOf, ValidateListenerAuth, Itoa;
    NamesIff(request);
  }

  // ----- HELLO ---------------------------------------------------------------------------------

  /** The words are the clauses written out: AUTH with user and password, SETNAME with a name, in any case. */
  predicate WrittenAs(words: seq<string>, clauses: seq<Clause>)
    decreases |clauses|
  {
    if clauses == [] then words == []
    else
      match clauses[0]
      case Auth(username, password) =>
        && |words| >= 3 && SameLetters(words[0], "AUTH") && words[1] == username && words[2] == password
        && WrittenAs(words[3..], clauses[1..])
      case SetName(keyword, name) =>
        && |words| >= 2 && SameLetters(words[0], "SETNAME") && words[0] == keyword && words[1] == name
        && WrittenAs(words[2..], clauses[1..])
  }

  function Auths(clauses: seq<Clause>): nat {
    if clauses == [] then 0 else (if clauses[0].Auth? then 1 else 0) + Auths(clauses[1..])
  }

  /** Clauses are taken exactly as they are written, and with at most one AUTH. */
  lemma {:induction false} ClausesIff(arguments: seq<string>, index: nat, suppliedAuth: bool, clauses: seq<Clause>)
    requires index <= |arguments|
    ensures Clauses(arguments, index, suppliedAuth) == Ok(clauses)
       <==> WrittenAs(arguments[index..], clauses) && Auths(clauses) <= (if suppliedAuth then 0 else 1)
    decreases |arguments| - index
  {
    hide Upper, SameLetters;
    if index < |arguments| {
      var words, rest := arguments[index..], if clauses == [] then [] else clauses[1..];
      UpperIff(arguments[index], "AUTH");
      UpperIff(arguments[index], "SETNAME");
      assert words[0] == arguments[index];
      if Upper(arguments[index]) == "AUTH" {
        if index + 3 <= |arguments| {
          assert words[1] == arguments[index + 1] && words[2] == arguments[index + 2] && words[3..] == arguments[index + 3..];
          ClausesIff(arguments, index + 3, true, rest);
          FirstClause(Clauses(arguments, index + 3, true), Auth(words[1], words[2]), clauses);
        }
      } else if index + 2 <= |arguments| {
        assert words[1] == arguments[index + 1] && words[2..] == arguments[index + 2..];
        ClausesIff(arguments, index + 2, suppliedAuth, rest);
        FirstClause(Clauses(arguments, index + 2, suppliedAuth), SetName(words[0], words[1]), clauses);
      }
    }
  }

  lemma FirstClause(rest: Result<seq<Clause>, string>, first: Clause, clauses: seq<Clause>)
    ensures rest.Ok? ==> ([first] + rest.value == clauses <==> clauses != [] && clauses[0] == first && clauses[1..] == rest.value)
  {
    if clauses != [] {
      assert clauses == [clauses[0]] + clauses[1..];
    }
  }

  /** A HELLO without a version, or with version 2 or 3 and well-formed clauses. */
  predicate WellFormedHello(arguments: seq<string>) {
    |arguments| == 1 || (|arguments| > 1 && (arguments[1] == "2" || arguments[1] == "3") && Clauses(arguments, 2, false).Ok?)
  }

  function SuppliedBy(arguments: seq<string>): Option<Clause>
    requires WellFormedHello(arguments)
  {
    if |arguments| == 1 then None else CredentialsOf(Clauses(arguments, 2, false).value)
  }

  /**
   HELLO: an ill-formed one is an error; wrong credentials are wrong; without any, and unauthenticated, it is turned
   away; otherwise it goes upstream.
   */
  lemma HelloAnswered(request: Frame, options: Options, authenticated: bool)
    requires Named(request, "HELLO")
    ensures var arguments, (item, next) := CommandArguments(request.value), Inspect(request, options, authenticated);
            if !WellFormedHello(arguments) then
              && item.forward == "" && next == authenticated
              && item.local == "-ERR " + (if arguments[1] != "2" && arguments[1] != "3" then "NOPROTO unsupported protocol version"
                                          else "syntax error") + "\r\n"
            else
              var supplied := SuppliedBy(arguments);
              var right := supplied.Some? && supplied.value.Auth? && RightPair(supplied.value.username, supplied.value.password, options);
              && next == (authenticated || right)
              && (item.forward != "" <==> right || (authenticated && supplied.None?))
              && (item.forward != "" ==> item.local == "")
              && (supplied.Some? && !right ==> item.local == "-WRONGPASS invalid username-password pair or user is disabled.\r\n")
              && (supplied.None? && !authenticated ==> item.local == "-NOAUTH Authentication required.\r\n")
  {
    hide CommandArguments, SameLetters, Command, Atoi, Itoa, Clauses, CredentialsOf, Encode, Definite, CommandValue, Kept;
    NamesIff(request);
    CommandNeedsArguments(request.value);
    SyntaxTexts(CommandArguments(request.value), options);
    if |CommandArguments(request.value)| > 1 && Clauses(CommandArguments(request.value), 2, false).Err? {
      ClauseErrors(CommandArguments(request.value), 2, false);
    }
  }

  /** A command as an array of bulk strings. */
  function CommandBytes(arguments: seq<string>): string {
    "*" + Itoa(|arguments|) + "\r\n" + BulkLines(arguments)
  }

  function BulkLines(arguments: seq<string>): string {
    if arguments == [] then "" else "$" + Itoa(|arguments[0]|) + "\r\n" + (arguments[0] + "\r\n") + BulkLines(arguments[1..])
  }

  lemma {:induction false} EncodedLines(arguments: seq<string>)
    ensures EncodeAll(DefiniteAll(BulkValues(arguments))) == BulkLines(arguments)
  {
    hide Itoa;
    if arguments != [] {
      var values := BulkValues(arguments);
      assert values[1..] == BulkValues(arguments[1..]);
      EncodedLines(arguments[1..]);
      assert DefiniteAll(values)[1..] == DefiniteAll(values[1..]);
    }
  }

  lemma EncodedIs(arguments: seq<string>)
    requires arguments != []
    ensures Encode(Definite(CommandValue(arguments))) == CommandBytes(arguments)
  {
    hide Itoa, EncodeAll, DefiniteAll;
    EncodedLines(arguments);
  }

  /** The words of the clauses that name the client. */
  function NameWords(clauses: seq<Clause>): seq<string> {
    if clauses == [] then []
    else
      match clauses[0]
      case Auth(_, _) => NameWords(clauses[1..])
      case SetName(keyword, name) => [keyword, name] + NameWords(clauses[1..])
  }

  lemma {:induction false} KeptIs(clauses: seq<Clause>)
    ensures Kept(clauses) == NameWords(clauses)
  {
    if clauses != [] {
      KeptIs(clauses[1..]);
    }
  }

  /** What goes upstream of a HELLO: its own words but for its credentials. */
  lemma HelloForwarded(request: Frame, options: Options, authenticated: bool)
    requires Named(request, "HELLO") && Inspect(request, options, authenticated).0.forward != ""
    ensures var arguments, (item, _) := CommandArguments(request.value), Inspect(request, options, authenticated);
            WellFormedHello(arguments) &&
            item.forward == CommandBytes(if |arguments| == 1 then arguments
                                         else arguments[..2] + NameWords(Clauses(arguments, 2, false).value))
  {
    hide CommandArguments, SameLetters, Command, Atoi, Itoa, Clauses, CredentialsOf, Encode, Definite, CommandValue, Kept, CommandBytes;
    NamesIff(request);
    CommandNeedsArguments(request.value);
    var arguments := CommandArguments(request.value);
    if |arguments| == 1 {
      EncodedIs(arguments);
    } else if Clauses(arguments, 2, false).Ok? {
      KeptIs(Clauses(arguments, 2, false).value);
      EncodedIs(arguments[..2] + NameWords(Clauses(arguments, 2, false).value));
    }
  }

  /** The text of a HELLO with credentials is not shown. */
  lemma HelloRedacted(request: Frame, options: Options, authenticated: bool)
    requires Named(request, "HELLO")
    ensures var arguments := CommandArguments(request.value);
            Inspect(request, options, authenticated).0.redacted <==> exists i :: 0 <= i < |arguments| && SameLetters(arguments[i], "AUTH")
  {
    hide CommandArguments, Upper, SameLetters, Command, Atoi, Itoa, HelloOf, Encode, Definite, ValidateListenerAuth;
    NamesIff(request);
    var arguments := CommandArguments(request.value);
    forall i | 0 <= i < |arguments| ensures Upper(arguments[i]) == "AUTH" <==> SameLetters(arguments[i], "AUTH") {
      UpperIff(arguments[i], "AUTH");
    }
  }

  // ----- authentication ------------------------------------------------------------------------

  /** An AUTH or a well-formed HELLO with the listener's credentials. */
  predicate Welcome(request: Frame, options: Options) {
    var arguments := CommandArguments(request.value);
    if Named(request, "AUTH") then
      || (|arguments| == 2 && RightPair("default", arguments[1], options))
      || (|arguments| == 3 && RightPair(arguments[1], arguments[2], options))
    else
      && Named(request, "HELLO") && WellFormedHello(arguments) && SuppliedBy(arguments).Some? && SuppliedBy(arguments).value.Auth?
      && RightPair(SuppliedBy(arguments).value.username, SuppliedBy(arguments).value.password, options)
  }

  lemma NotBoth(request: Frame)
    requires Named(request, "AUTH")
    ensures !Named(request, "HELLO") && !Named(request, "SELECT") && !Named(request, "RESET")
  {
    hide CommandArguments, Command;
    NamesIff(request);
  }

  lemma AuthGains(request: Frame, options: Options, authenticated: bool)
    requires Named(request, "AUTH")
    ensures Inspect(request, options, authenticated).1 <==> authenticated || Welcome(request, options)
  {
    hide CommandArguments, Inspect, Named, RightPair;
    AuthAnswered(request, options, authenticated);
  }

  lemma HelloGains(request: Frame, options: Options, authenticated: bool)
    requires Named(request, "HELLO") && !Named(request, "AUTH")
    ensures Inspect(request, options, authenticated).1 <==> authenticated || Welcome(request, options)
  {
    hide CommandArguments, Inspect, Named, WellFormedHello, SuppliedBy, RightPair;
    HelloAnswered(request, options, authenticated);
  }

  lemma OthersGainNothing(request: Frame, options: Options, authenticated: bool)
    requires !Named(request, "AUTH") && !Named(request, "HELLO")
    ensures Inspect(request, options, authenticated).1 == authenticated
  {
    hide CommandArguments, Inspect, Named;
    if !authenticated {
      Unauthenticated(request, options);
    } else if Named(request, "SELECT") {
      SelectAnswered(request, options);
    } else if Named(request, "RESET") {
      ResetAnswered(request, options);
    } else {
      OthersForwarded(request, options);
    }
  }

  /** A client is authenticated by showing the credentials, and by nothing else, and stays so. */
  lemma GainedIff(request: Frame, options: Options, authenticated: bool)
    ensures Inspect(request, options, authenticated).1 <==> authenticated || Welcome(request, options)
  {
    hide CommandArguments, Inspect, Named, WellFormedHello, SuppliedBy, RightPair;
    if Named(request, "AUTH") {
      AuthGains(request, options, authenticated);
    } else if Named(request, "HELLO") {
      HelloGains(request, options, authenticated);
    } else {
      OthersGainNothing(request, options, authenticated);
    }
  }

  /** Over any conversation: without a password at once, with one from the first request that shows it. */
  lemma {:induction false} AuthAfterIff(requests: seq<Frame>, options: Options)
    ensures AuthAfter(requests, options) <==> options.listenerPassword == "" || exists k :: 0 <= k < |requests| && Welcome(requests[k], options)
  {
    hide Inspect, Welcome;
    if requests != [] {
      var last := |requests| - 1;
      AuthAfterIff(requests[..last], options);
      GainedIff(requests[last], options, AuthAfter(requests[..last], options));
      assert forall k :: 0 <= k < last ==> requests[..last][k] == requests[k];
    }
  }

  /** What other properties mean by showing the credentials. */
  lemma ShowsIff(request: Frame, options: Options)
    ensures ShowsCredentials(request, options) <==> Welcome(request, options)
  {
    hide CommandArguments, SameLetters, Command, Clauses, CredentialsOf;
    NamesIff(request);
    var arguments := CommandArguments(request.value);
    CommandNeedsArguments(request.value);
    if Named(request, "HELLO") && |arguments| == 2 {
      NoClauses(arguments);
    }
  }

  lemma NoClauses(arguments: seq<string>)
    requires |arguments| == 2
    ensures Clauses(arguments, 2, false) == Ok([]) && CredentialsOf([]).None?
  {
  }
}
