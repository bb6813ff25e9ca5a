/**
 The text layer of SCRAM (RFC 5802 section 5.1): comma-separated attributes, the escaping of user
 names, and the search for the proof. Texts are bytes, one `char` each.
 */
module ScramText {
  import opened Wrappers

  // ----- splitting -----------------------------------------------------------------------------

  function Join(parts: seq<string>): string {
    if parts == [] then ""
    else if |parts| == 1 then parts[0]
    else parts[0] + "," + Join(parts[1..])
  }

  function IndexOf(s: string, c: char): (i: nat)
    requires c in s
    ensures i < |s| && s[i] == c && c !in s[..i]
  {
    if s[0] == c then 0 else
      assert s == [s[0]] + s[1..];
      var i := IndexOf(s[1..], c);
      assert s[..1 + i] == [s[0]] + s[1..][..i];
      1 + i
  }

  lemma {:induction false} FirstIndex(s: string, c: char, k: nat)
    requires k < |s| && s[k] == c && c !in s[..k]
    ensures c in s && IndexOf(s, c) == k
    decreases |s|
  {
    assert s[k] in s;
    if k > 0 {
      assert s[0] == s[..k][0];
      assert s[1..][..k - 1] == s[..k][1..];
      FirstIndex(s[1..], c, k - 1);
    }
  }

  /** strings.Split at commas. */
  function Split(s: string): (parts: seq<string>)
    ensures |parts| > 0 && Join(parts) == s
    ensures forall i :: 0 <= i < |parts| ==> ',' !in parts[i]
    decreases |s|
  {
    if ',' !in s then [s]
    else
      var i := IndexOf(s, ',');
      var rest := Split(s[i + 1..]);
      assert ([s[..i]] + rest)[1..] == rest && s == s[..i] + "," + s[i + 1..];
      [s[..i]] + rest
  }

  lemma {:induction false} SplitJoined(parts: seq<string>)
    requires |parts| > 0 && forall i :: 0 <= i < |parts| ==> ',' !in parts[i]
    ensures Split(Join(parts)) == parts
    decreases |parts|
  {
    if |parts| > 1 {
      var s := Join(parts);
      assert s == parts[0] + "," + Join(parts[1..]);
      var i := |parts[0]|;
      assert s[i] == ',' && s[..i] == parts[0] && s[i + 1..] == Join(parts[1..]);
      FirstIndex(s, ',', i);
      SplitJoined(parts[1..]);
    }
  }

  // ----- attributes ----------------------------------------------------------------------------

  datatype Attribute = Attribute(key: char, value: string)

  predicate Proper(a: Attribute) {
    a.key != ',' && a.value != "" && ',' !in a.value
  }

  predicate AllProper(attributes: seq<Attribute>) {
    forall i :: 0 <= i < |attributes| ==> Proper(attributes[i])
  }

  predicate DistinctKeys(attributes: seq<Attribute>) {
    forall i, j :: 0 <= i < j < |attributes| ==> attributes[i].key != attributes[j].key
  }

  function PrintOne(a: Attribute): string {
    [a.key] + "=" + a.value
  }

  function PrintParts(attributes: seq<Attribute>): (parts: seq<string>)
    ensures |parts| == |attributes|
    ensures forall i :: 0 <= i < |parts| ==> parts[i] == PrintOne(attributes[i])
  {
    seq(|attributes|, i requires 0 <= i < |attributes| => PrintOne(attributes[i]))
  }

  function Print(attributes: seq<Attribute>): string {
    Join(PrintParts(attributes))
  }

  function Bindings(attributes: seq<Attribute>, known: map<char, string>): map<char, string> {
    if attributes == [] then known
    else Bindings(attributes[1..], known[attributes[0].key := attributes[0].value])
  }

  predicate IsAttribute(part: string) {
    |part| >= 3 && part[1] == '='
  }

  /** Attributes already read in `known`; a malformed part or a key seen before is an error. */
  function ReadParts(parts: seq<string>, known: map<char, string>): Option<map<char, string>>
    decreases |parts|
  {
    if parts == [] then Some(known)
    else if !IsAttribute(parts[0]) || parts[0][0] in known then None
    else ReadParts(parts[1..], known[parts[0][0] := parts[0][2..]])
  }

  function Attributes(text: string): Option<map<char, string>> {
    ReadParts(Split(text), map[])
  }

  /** A missing attribute reads as the empty text. */
  function Get(attributes: map<char, string>, key: char): string {
    if key in attributes then attributes[key] else ""
  }

  method ParseAttributes(text: string) returns (result: Option<map<char, string>>)
    ensures result == Attributes(text)
  {
    var known := map[];
    var parts := Split(text);
    for i := 0 to |parts|
      invariant ReadParts(parts[i..], known) == Attributes(text)
    {
      var part := parts[i];
      assert parts[i..][1..] == parts[i + 1..];
      if |part| < 3 || part[1] != '=' {
        return None;
      }
      if part[0] in known {
        return None;
      }
      known := known[part[0] := part[2..]];
    }
    return Some(known);
  }

  lemma {:induction false} ReadPrintedParts(attributes: seq<Attribute>, known: map<char, string>)
    requires AllProper(attributes) && DistinctKeys(attributes)
    requires forall i :: 0 <= i < |attributes| ==> attributes[i].key !in known
    ensures ReadParts(PrintParts(attributes), known) == Some(Bindings(attributes, known))
    decreases |attributes|
  {
    if attributes != [] {
      var parts, first := PrintParts(attributes), attributes[0];
      assert parts[0] == PrintOne(first) && parts[0][2..] == first.value;
      assert parts[1..] == PrintParts(attributes[1..]);
      ReadPrintedParts(attributes[1..], known[first.key := first.value]);
    }
  }

  lemma PrintedPartsHaveNoComma(attributes: seq<Attribute>)
    requires AllProper(attributes)
    ensures forall i :: 0 <= i < |attributes| ==> ',' !in PrintParts(attributes)[i]
  {
    forall i | 0 <= i < |attributes|
      ensures ',' !in PrintParts(attributes)[i]
    {
      assert Proper(attributes[i]);
    }
  }

  /** Reading printed attributes gives them back. */
  lemma ReadPrinted(attributes: seq<Attribute>)
    requires attributes != [] && AllProper(attributes) && DistinctKeys(attributes)
    ensures Attributes(Print(attributes)) == Some(Bindings(attributes, map[]))
  {
    PrintedPartsHaveNoComma(attributes);
    SplitJoined(PrintParts(attributes));
    ReadPrintedParts(attributes, map[]);
  }

  lemma JoinTwo(first: string, second: string)
    ensures Join([first, second]) == first + "," + second
  {
    assert [first, second][1..] == [second];
  }

  lemma BindOne(a: Attribute, known: map<char, string>)
    ensures Bindings([a], known) == known[a.key := a.value]
  {
    assert [a][1..] == [];
  }

  lemma ReadOne(a: Attribute)
    requires Proper(a)
    ensures Attributes(PrintOne(a)) == Some(map[a.key := a.value])
  {
    hide Attributes;
    ReadPrinted([a]);
    assert PrintParts([a]) == [PrintOne(a)] && Print([a]) == PrintOne(a);
    BindOne(a, map[]);
    assert map[][a.key := a.value] == map[a.key := a.value];
  }

  lemma ReadPair(a: Attribute, b: Attribute)
    requires Proper(a) && Proper(b) && a.key != b.key
    ensures Attributes(PrintOne(a) + "," + PrintOne(b)) == Some(map[a.key := a.value, b.key := b.value])
  {
    hide Attributes, PrintOne;
    ReadPrinted([a, b]);
    assert PrintParts([a, b]) == [PrintOne(a), PrintOne(b)];
    JoinTwo(PrintOne(a), PrintOne(b));
    assert [a, b][1..] == [b];
    assert map[][a.key := a.value] == map[a.key := a.value];
    BindOne(b, map[a.key := a.value]);
    assert map[a.key := a.value][b.key := b.value] == map[a.key := a.value, b.key := b.value];
  }

  lemma ReadTriple(a: Attribute, b: Attribute, c: Attribute)
    requires Proper(a) && Proper(b) && Proper(c) && a.key != b.key && a.key != c.key && b.key != c.key
    ensures Attributes(PrintOne(a) + "," + PrintOne(b) + "," + PrintOne(c))
         == Some(map[a.key := a.value, b.key := b.value, c.key := c.value])
  {
    hide Attributes, PrintOne;
    ReadPrinted([a, b, c]);
    var pa, pb, pc := PrintOne(a), PrintOne(b), PrintOne(c);
    assert PrintParts([a, b, c]) == [pa, pb, pc] && [pa, pb, pc][1..] == [pb, pc];
    JoinTwo(pb, pc);
    assert pa + "," + (pb + "," + pc) == pa + "," + pb + "," + pc;
    assert [a, b, c][1..] == [b, c] && [b, c][1..] == [c];
    var one, two := map[a.key := a.value], map[a.key := a.value, b.key := b.value];
    assert map[][a.key := a.value] == one && one[b.key := b.value] == two;
    BindOne(c, two);
    assert Bindings([b, c], one) == Bindings([c], two);
    assert two[c.key := c.value] == map[a.key := a.value, b.key := b.value, c.key := c.value];
  }

  /** A part shorter than three is refused, wherever it stands. */
  lemma ShortPair(first: string, second: string)
    requires ',' !in first && ',' !in second && (|first| < 3 || |second| < 3)
    ensures Attributes(first + "," + second).None?
  {
    JoinTwo(first, second);
    SplitJoined([first, second]);
    assert [first, second][1..] == [second];
    if IsAttribute(first) {
      assert ReadParts([second], map[][first[0] := first[2..]]).None?;
    }
  }

  lemma {:induction false} AcceptedParts(parts: seq<string>, known: map<char,
                        string>) returns (attributes: seq<Attribute>)
    requires ReadParts(parts, known).Some?
    requires forall i :: 0 <= i < |parts| ==> ',' !in parts[i]
    ensures AllProper(attributes) && DistinctKeys(attributes)
    ensures forall i :: 0 <= i < |attributes| ==> attributes[i].key !in known
    ensures parts == PrintParts(attributes)
    decreases |parts|
  {
    hide AllProper, DistinctKeys, PrintParts;
    if parts == [] {
      attributes := [];
      NoAttributes();
    } else {
      var part := parts[0];
      var first := Attribute(part[0], part[2..]);
      assert part == PrintOne(first) && part[0] in part;
      var rest := AcceptedParts(parts[1..], known[first.key := first.value]);
      attributes := [first] + rest;
      PrependAttribute(first, rest);
      assert parts == [part] + parts[1..];
    }
  }

  lemma NoAttributes()
    ensures AllProper([]) && DistinctKeys([]) && PrintParts([]) == []
  {
  }

  lemma PrependAttribute(first: Attribute, rest: seq<Attribute>)
    requires Proper(first) && AllProper(rest) && DistinctKeys(rest)
    requires forall i :: 0 <= i < |rest| ==> rest[i].key != first.key
    ensures AllProper([first] + rest) && DistinctKeys([first] + rest)
    ensures PrintParts([first] + rest) == [PrintOne(first)] + PrintParts(rest)
  {
    hide Proper;
  }

  predicate IsPrintOf(text: string, attributes: seq<Attribute>) {
    attributes != [] && AllProper(attributes) && DistinctKeys(attributes) && text == Print(attributes)
  }

  /** The texts accepted are exactly the prints of attributes with distinct keys and non-empty values. */
  lemma AttributesIff(text: string)
    ensures Attributes(text).Some? <==> exists attributes :: IsPrintOf(text, attributes)
  {
    if Attributes(text).Some? {
      var attributes := AcceptedParts(Split(text), map[]);
      assert IsPrintOf(text, attributes);
    }
    forall attributes | IsPrintOf(text, attributes)
      ensures Attributes(text).Some?
    {
      ReadPrinted(attributes);
    }
  }

  lemma {:induction false} BindingsHold(attributes: seq<Attribute>, known: map<char, string>)
    requires DistinctKeys(attributes)
    requires forall i :: 0 <= i < |attributes| ==> attributes[i].key !in known
    ensures var bound := Bindings(attributes, known);
            && (forall key <- known :: key in bound && bound[key] == known[key])
            && (forall a <- attributes :: a.key in bound && bound[a.key] == a.value)
            && (forall key <- bound :: key in known || Attribute(key, bound[key]) in attributes)
  {
    if attributes != [] {
      BindingsHold(attributes[1..], known[attributes[0].key := attributes[0].value]);
      assert attributes == [attributes[0]] + attributes[1..];
    }
  }

  /** Looking a key up finds the value of the attribute with that key, or nothing when there is none. */
  lemma GetIff(attributes: seq<Attribute>, key: char, value: string)
    requires DistinctKeys(attributes) && AllProper(attributes)
    ensures Get(Bindings(attributes, map[]), key) == value
       <==> if value == "" then forall a <- attributes :: a.key != key else Attribute(key, value) in attributes
  {
    hide Bindings;
    BindingsHold(attributes, map[]);
    assert forall a <- attributes :: Proper(a);
  }

  // ----- escaping ------------------------------------------------------------------------------

  function Escape(name: string): string {
    if name == "" then ""
    else (if name[0] == '=' then "=3D" else if name[0] == ',' then "=2C" else [name[0]]) + Escape(name[1..])
  }

  predicate IsEscape(text: string, i: nat)
    requires i < |text|
  {
    i + 2 < |text| && (text[i..i + 3] == "=2C" || text[i..i + 3] == "=3D")
  }

  predicate EscapesComplete(text: string) {
    forall i :: 0 <= i < |text| && text[i] == '=' ==> IsEscape(text, i)
  }

  /** The replacer: left to right, what it has written is not read again. */
  function Replace(text: string): string
    decreases |text|
  {
    if text == "" then ""
    else if |text| >= 3 && text[..3] == "=2C" then "," + Replace(text[3..])
    else if |text| >= 3 && text[..3] == "=3D" then "=" + Replace(text[3..])
    else [text[0]] + Replace(text[1..])
  }

  function Unescape(text: string): Option<string> {
    if EscapesComplete(text) then Some(Replace(text)) else None
  }

  method UnescapeName(text: string) returns (result: Option<string>)
    ensures result == Unescape(text)
  {
    for i := 0 to |text|
      invariant forall j :: 0 <= j < i && text[j] == '=' ==> IsEscape(text, j)
    {
      if text[i] == '=' && (i + 2 >= |text| || (text[i..i + 3] != "=2C" && text[i..i + 3] != "=3D")) {
        assert !IsEscape(text, i);
        return None;
      }
    }
    return Some(Replace(text));
  }

  /** One more character in front. */
  lemma EscapesFront(front: string, rest: string)
    requires front == "=2C" || front == "=3D" || (|front| == 1 && front[0] != '=')
    ensures EscapesComplete(front + rest) <==> EscapesComplete(rest)
  {
    var all := front + rest;
    assert forall i :: 0 <= i < |rest| ==> all[|front| + i] == rest[i];
    forall i | 0 <= i < |rest|
      ensures IsEscape(rest, i) <==> IsEscape(all, |front| + i)
    {
      if i + 2 < |rest| {
        assert all[|front| + i..|front| + i + 3] == rest[i..i + 3];
      }
    }
    if |front| == 3 {
      assert all[0..3] == front && IsEscape(all, 0);
      assert all[1] != '=' && all[2] != '=';
    }
    if EscapesComplete(all) {
      forall i | 0 <= i < |rest| && rest[i] == '='
        ensures IsEscape(rest, i)
      {
        assert all[|front| + i] == '=';
      }
    }
    if EscapesComplete(rest) {
      forall i | 0 <= i < |all| && all[i] == '='
        ensures IsEscape(all, i)
      {
        if i >= |front| {
          assert rest[i - |front|] == '=';
          assert IsEscape(rest, i - |front|);
        }
      }
    }
  }

  /** Unescaping an escaped name gives it back; the escaped form has no comma and is empty only for the empty name. */
  lemma {:induction false} UnescapeEscape(name: string)
    ensures Unescape(Escape(name)) == Some(name)
    ensures ',' !in Escape(name)
    ensures Escape(name) == "" <==> name == ""
    decreases |name|
  {
    if name != "" {
      UnescapeEscape(name[1..]);
      var front := if name[0] == '=' then "=3D" else if name[0] == ',' then "=2C" else [name[0]];
      var rest := Escape(name[1..]);
      assert Escape(name) == front + rest;
      EscapesFront(front, rest);
      assert (front + rest)[|front|..] == rest;
      assert |front| == 3 ==> (front + rest)[..3] == front;
      assert front[0] == (front + rest)[0];
      assert name == [name[0]] + name[1..];
    }
  }

  /** A comma-free text unescapes to a name exactly when it is the name's escaped form. */
  lemma {:induction false} UnescapeIff(text: string, name: string)
    ensures (',' !in text && Unescape(text) == Some(name)) <==> text == Escape(name)
  {
    UnescapeEscape(name);
    if ',' !in text && Unescape(text) == Some(name) {
      EscapeReplaced(text);
    }
  }

  lemma {:induction false} EscapeReplaced(text: string)
    requires ',' !in text && EscapesComplete(text)
    ensures Escape(Replace(text)) == text
    decreases |text|
  {
    if text != "" {
      var width := if text[0] == '=' then 3 else 1;
      if text[0] == '=' {
        assert IsEscape(text, 0) && text[0..3] == text[..3];
      }
      assert text == text[..width] + text[width..];
      EscapesFront(text[..width], text[width..]);
      EscapeReplaced(text[width..]);
      var c := Replace(text)[0];
      assert Replace(text) == [c] + Replace(text[width..]);
      assert Replace(text)[1..] == Replace(text[width..]);
      if width == 1 {
        assert |text| >= 3 ==> text[..3][0] != '=';
        assert text[0] == c && text[0] in text;
      }
    }
  }

  // ----- the proof -----------------------------------------------------------------------------

  predicate StartsAt(s: string, what: string, i: int) {
    0 <= i <= |s| - |what| && s[i..i + |what|] == what
  }

  /** strings.LastIndex: the last place where `what` starts, or -1. */
  function LastIndex(s: string, what: string): (i: int)
    ensures i == -1 || StartsAt(s, what, i)
    ensures forall j :: StartsAt(s, what, j) ==> j <= i
    decreases |s|
  {
    if |s| < |what| then -1
    else if s[|s| - |what|..] == what then |s| - |what|
    else if s == "" then -1
    else
      var shorter := s[..|s| - 1];
      assert forall j :: j != |s| - |what| && StartsAt(s, what, j) ==> StartsAt(shorter, what, j) by {
        forall j | j != |s| - |what| && StartsAt(s, what, j)
          ensures StartsAt(shorter, what, j)
        {
          assert shorter[j..j + |what|] == s[j..j + |what|];
        }
      }
      LastIndex(shorter, what)
  }

  lemma LastProof(before: string, proof: string)
    requires ',' !in proof
    ensures LastIndex(before + ",p=" + proof, ",p=") == |before|
  {
    hide LastIndex, StartsAt;
    var s, tail := before + ",p=" + proof, "p=" + proof;
    assert s == before + ([','] + tail);
    NoLaterComma(before, tail);
    ProofStarts(before, proof, s);
    forall j | StartsAt(s, ",p=", j)
      ensures j <= |before|
    {
      StartsWithComma(s, j);
    }
  }

  lemma NoLaterComma(before: string, tail: string)
    requires ',' !in tail
    ensures var s := before + ([','] + tail);
            forall k :: |before| < k < |s| ==> s[k] != ','
  {
    var s := before + ([','] + tail);
    assert forall k :: |before| < k < |s| ==> s[k] == tail[k - |before| - 1] && s[k] in tail;
  }

  lemma ProofStarts(before: string, proof: string, s: string)
    requires s == before + ",p=" + proof
    ensures StartsAt(s, ",p=", |before|)
  {
    assert s[|before|..|before| + 3] == ",p=";
  }

  lemma StartsWithComma(s: string, j: int)
    requires StartsAt(s, ",p=", j)
    ensures 0 <= j < |s| && s[j] == ','
  {
    assert s[j..j + 3][0] == ',';
  }
}
