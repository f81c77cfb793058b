/** service/groupDefinition.go: the text of a group definition and the names it may define. */
module GroupDefinition {
  import opened Ordering
  import opened Wrappers

  datatype NameError = BlankGroup | InvalidGroupLeading | InvalidGroupTrailing | InvalidGroup

  datatype DefinitionError = TooFewFields | BadName(error: NameError)

  datatype CharClass = CharClass(groupLeading: bool, group: bool, groupTrailing: bool)

  // ---- the character table and the loop that consults it

  predicate TableLetter(c: Byte) { 'a' <= c < 'z' }

  predicate TableDigit(c: Byte) { '0' <= c < '9' }

  /** The first complaint about a name, in the order in which the checks are made. */
  function ComplaintAbout(name: Text): Option<NameError> {
    if name == [] then Some(BlankGroup)
    else if !TableLetter(name[0]) then Some(InvalidGroupLeading)
    else if !(TableLetter(name[|name| - 1]) || TableDigit(name[|name| - 1])) then Some(InvalidGroupTrailing)
    else if exists i :: 0 < i < |name| - 1
                        && !(TableLetter(name[i]) || TableDigit(name[i]) || name[i] == '-') then Some(InvalidGroup)
    else None
  }

  class NameValidator {
    const validCharacters: array<CharClass>

    ghost predicate Valid()
      reads this, validCharacters
    {
      && validCharacters.Length == 256
      && forall c: Byte :: validCharacters[c as int] ==
           CharClass(TableLetter(c), TableLetter(c) || TableDigit(c) || c == '-', TableLetter(c) || TableDigit(c))
    }

    /** The package's init function. */
    constructor ()
      ensures Valid() && fresh(validCharacters)
    {
      var table := new CharClass[256](_ => CharClass(false, false, false));
      table['-' as int] := table['-' as int].(group := true);

      for i := '0' as int to '9' as int
        invariant forall k :: 0 <= k < 256 ==>
          var digit := '0' as int <= k < i;
          table[k] == CharClass(false, digit || k == '-' as int, digit)
      {
        table[i] := table[i].(group := true, groupTrailing := true);
      }

      for i := 'a' as int to 'z' as int
        invariant forall k :: 0 <= k < 256 ==>
          var digit, letter := '0' as int <= k < '9' as int, 'a' as int <= k < i;
          table[k] == CharClass(letter, letter || digit || k == '-' as int, letter || digit)
      {
        table[i] := CharClass(true, true, true);
      }
      validCharacters := table;
    }

    method ValidateGroupName(name: Text) returns (err: Option<NameError>)
      requires Valid()
      ensures err == ComplaintAbout(name)
    {
      if |name| == 0 {
        return Some(BlankGroup);
      }
      if !validCharacters[name[0] as int].groupLeading {
        return Some(InvalidGroupLeading);
      }
      if !validCharacters[name[|name| - 1] as int].groupTrailing {
        return Some(InvalidGroupTrailing);
      }
      var i := 1;
      while i < |name| - 1
        invariant 1 <= i
        invariant forall k :: 0 < k < i && k < |name| - 1 ==>
          TableLetter(name[k]) || TableDigit(name[k]) || name[k] == '-'
      {
        if !validCharacters[name[i] as int].group {
          assert !(TableLetter(name[i]) || TableDigit(name[i]) || name[i] == '-');
          return Some(InvalidGroup);
        }
        i := i + 1;
      }
      return None;
    }
  }

  // ---- the grammar of labels in section 2.3.1 of RFC 1035

  predicate Letter(c: Byte) { 'A' <= c <= 'Z' || 'a' <= c <= 'z' }

  predicate Digit(c: Byte) { '0' <= c <= '9' }

  predicate LetDig(c: Byte) { Letter(c) || Digit(c) }

  predicate LetDigHyp(c: Byte) { LetDig(c) || c == '-' }

  /** <ldh-str> ::= <let-dig-hyp> | <let-dig-hyp> <ldh-str> */
  predicate LdhStr(s: Text) {
    s != [] && LetDigHyp(s[0]) && (|s| == 1 || LdhStr(s[1..]))
  }

  /** <label> ::= <letter> [ [ <ldh-str> ] <let-dig> ] */
  predicate Label(s: Text) {
    s != [] && Letter(s[0]) &&
    (|s| == 1 || (LetDig(s[|s| - 1]) && (|s| == 2 || LdhStr(s[1..|s| - 1]))))
  }

  /** What the error messages promise: labels whose letters are all lowercase. */
  predicate LowercaseLabel(s: Text) {
    Label(s) && forall c :: c in s ==> !('A' <= c <= 'Z')
  }

  lemma {:induction false} LdhStrIsCharwise(s: Text)
    ensures LdhStr(s) <==> s != [] && forall i :: 0 <= i < |s| ==> LetDigHyp(s[i])
  {
    if |s| > 1 {
      LdhStrIsCharwise(s[1..]);
      assert forall i :: 0 < i < |s| ==> s[i] == s[1..][i - 1];
      assert LdhStr(s) ==> forall i :: 0 <= i < |s| ==> LetDigHyp(s[i]) by {
        if LdhStr(s) {
          forall i | 0 <= i < |s| ensures LetDigHyp(s[i]) {
            if i > 0 { assert s[i] == s[1..][i - 1]; }
          }
        }
      }
    }
  }

  /**
   * The table loops stop one short, so the names accepted are the promised ones without the
   * letter z and the digit 9.
   */
  lemma AcceptedNames(name: Text)
    ensures ComplaintAbout(name).None? <==> LowercaseLabel(name) && 'z' !in name && '9' !in name
  {
    var n := |name|;
    if n > 2 {
      var inner := name[1..n - 1];
      LdhStrIsCharwise(inner);
      assert forall i :: 0 < i < n - 1 ==> inner[i - 1] == name[i];
      if ComplaintAbout(name).None? {
        forall i | 0 <= i < |inner| ensures LetDigHyp(inner[i]) { assert inner[i] == name[i + 1]; }
        forall c | c in name ensures c != 'z' && c != '9' && !('A' <= c <= 'Z') {
          var i :| 0 <= i < n && name[i] == c;
        }
      } else if LowercaseLabel(name) && 'z' !in name && '9' !in name {
        assert name[0] in name && name[n - 1] in name;
        forall i | 0 < i < n - 1 ensures TableLetter(name[i]) || TableDigit(name[i]) || name[i] == '-' {
          assert LetDigHyp(inner[i - 1]) && name[i] in name;
        }
      }
    } else if n > 0 {
      assert name[0] in name && name[n - 1] in name;
      assert forall c :: c in name ==> c == name[0] || c == name[n - 1];
    }
  }

  /** A name the messages promise to accept that is rejected. */
  lemma PromisedNameRejected()
    ensures LowercaseLabel("az9") && ComplaintAbout("az9") == Some(InvalidGroupTrailing)
    ensures LowercaseLabel("azb") && ComplaintAbout("azb") == Some(InvalidGroup)
    ensures LowercaseLabel("zb") && ComplaintAbout("zb") == Some(InvalidGroupLeading)
  {
    var name: Text := "azb";
    assert !TableLetter(name[1]);
  }

  // ---- definitions

  predicate IsSpace(c: Byte) { c == ' ' || '\t' <= c <= '\r' }

  /** A field: not empty and free of white space. */
  predicate Token(s: Text) { s != [] && forall i :: 0 <= i < |s| ==> !IsSpace(s[i]) }

  /** How many characters come before the first white space. */
  function TokenLength(s: Text): (n: nat)
    ensures n <= |s| && (forall i :: 0 <= i < n ==> !IsSpace(s[i])) && (n < |s| ==> IsSpace(s[n]))
  {
    if s == [] || IsSpace(s[0]) then 0 else 1 + TokenLength(s[1..])
  }

  /** strings.Fields on ASCII text. */
  function Fields(s: Text): (fields: seq<Text>)
    ensures forall f :: f in fields ==> Token(f)
    decreases |s|
  {
    if s == [] then []
    else if IsSpace(s[0]) then Fields(s[1..])
    else
      var n := TokenLength(s);
      [s[..n]] + Fields(s[n..])
  }

  datatype Definition = Definition(name: Text, services: seq<Text>)

  function ParseGroupDefinition(txt: Text): (r: Result<Definition, DefinitionError>)
    ensures r.Ok? ==> ComplaintAbout(r.value.name).None? && Token(r.value.name)
    ensures r.Ok? ==> r.value.services != [] && forall s :: s in r.value.services ==> Token(s)
  {
    var fields := Fields(txt);
    if |fields| > 1 then
      match ComplaintAbout(fields[0])
      case None => Ok(Definition(fields[0], fields[1..]))
      case Some(e) => Err(BadName(e))
    else
      Err(TooFewFields)
  }

  lemma TokenThenSpace(a: Text, rest: Text)
    requires Token(a)
    ensures Fields(a + [' '] + rest) == [a] + Fields(rest)
    ensures Fields(a) == [a]
  {
    var s := a + [' '] + rest;
    var n := TokenLength(s);
    assert n == |a| by {
      assert s[|a|] == ' ';
      assert forall i :: 0 <= i < |a| ==> s[i] == a[i];
    }
    assert s[..n] == a && s[n..][1..] == rest;
    var m := TokenLength(a);
    assert m == |a|;
    assert a[..m] == a && a[m..] == [];
  }

  /** Printing a definition of one service and parsing it gives it back. */
  lemma ParsePrinted(name: Text, service: Text)
    requires Token(name) && Token(service) && ComplaintAbout(name).None?
    ensures ParseGroupDefinition(name + [' '] + service) == Ok(Definition(name, [service]))
  {
    TokenThenSpace(name, service);
    TokenThenSpace(service, []);
  }

  // ---- which texts parse

  ghost predicate Gap(s: Text) { forall i :: 0 <= i < |s| ==> IsSpace(s[i]) }

  /** After `n` characters of white space comes a field. */
  ghost predicate FieldAt(txt: Text, field: Text, n: nat) {
    && n + |field| <= |txt| && Gap(txt[..n])
    && Token(field) && txt[n..n + |field|] == field
    && (n + |field| < |txt| ==> IsSpace(txt[n + |field|]))
  }

  /** The text consists of these fields, with white space between them, and maybe around them. */
  ghost predicate SpacedAs(txt: Text, fields: seq<Text>)
    decreases fields
  {
    if fields == [] then Gap(txt)
    else exists n: nat :: FieldAt(txt, fields[0], n) && SpacedAs(txt[n + |fields[0]|..], fields[1..])
  }

  lemma {:induction false} SkipGap(txt: Text, n: nat)
    requires n <= |txt| && Gap(txt[..n])
    ensures Fields(txt) == Fields(txt[n..])
  {
    if n > 0 {
      assert IsSpace(txt[..n][0]);
      assert txt[1..][..n - 1] == txt[..n][1..];
      SkipGap(txt[1..], n - 1);
      assert txt[1..][n - 1..] == txt[n..];
    }
  }

  lemma TakeField(txt: Text, field: Text, n: nat)
    requires FieldAt(txt, field, n)
    ensures Fields(txt) == [field] + Fields(txt[n + |field|..])
  {
    SkipGap(txt, n);
    var rest := txt[n..];
    assert forall i :: 0 <= i < |field| ==> rest[i] == field[i];
    var k := TokenLength(rest);
    assert k == |field|;
    assert rest[..k] == field && rest[k..] == txt[n + |field|..];
  }

  lemma OnlyGap(txt: Text)
    requires Gap(txt)
    ensures Fields(txt) == []
  {
    assert txt[..|txt|] == txt;
    SkipGap(txt, |txt|);
  }

  lemma {:induction false} SpacedFirst(txt: Text, fields: seq<Text>)
    requires SpacedAs(txt, fields)
    ensures Fields(txt) == fields
    decreases fields
  {
    if fields == [] {
      OnlyGap(txt);
    } else {
      var rest := SpacedRest(txt, fields);
      SpacedFirst(rest, fields[1..]);
      assert fields == [fields[0]] + fields[1..];
    }
  }

  lemma SpacedRest(txt: Text, fields: seq<Text>) returns (rest: Text)
    requires fields != [] && SpacedAs(txt, fields)
    ensures SpacedAs(rest, fields[1..]) && Fields(txt) == [fields[0]] + Fields(rest)
  {
    var n: nat :| FieldAt(txt, fields[0], n) && SpacedAs(txt[n + |fields[0]|..], fields[1..]);
    rest := txt[n + |fields[0]|..];
    TakeField(txt, fields[0], n);
  }

  lemma SpacedOneMore(txt: Text, field: Text, n: nat, more: seq<Text>)
    requires FieldAt(txt, field, n) && SpacedAs(txt[n + |field|..], more)
    ensures SpacedAs(txt, [field] + more)
  {
    var fields := [field] + more;
    assert fields[0] == field && fields[1..] == more;
    assert FieldAt(txt, fields[0], n) && SpacedAs(txt[n + |fields[0]|..], fields[1..]);
  }

  lemma {:induction false} FieldsSpaced(txt: Text)
    ensures SpacedAs(txt, Fields(txt))
    decreases |txt|
  {
    var n := GapLength(txt);
    if n < |txt| {
      var field := txt[n..n + TokenLength(txt[n..])];
      FirstField(txt, n);
      TakeField(txt, field, n);
      FieldsSpaced(txt[n + |field|..]);
      SpacedOneMore(txt, field, n, Fields(txt[n + |field|..]));
    } else {
      OnlyGap(txt);
    }
  }

  lemma FirstField(txt: Text, n: nat)
    requires n < |txt| && Gap(txt[..n]) && !IsSpace(txt[n])
    ensures TokenLength(txt[n..]) > 0 && FieldAt(txt, txt[n..n + TokenLength(txt[n..])], n)
  {
    var rest := txt[n..];
    var k := TokenLength(rest);
    assert txt[n..n + k] == rest[..k];
    assert n + k < |txt| ==> txt[n + k] == rest[k];
  }

  /** The fields of a text are the only ones of which it consists. */
  lemma FieldsIff(txt: Text, fields: seq<Text>)
    ensures Fields(txt) == fields <==> SpacedAs(txt, fields)
  {
    FieldsSpaced(txt);
    if SpacedAs(txt, fields) {
      SpacedFirst(txt, fields);
    }
  }

  /** How much white space comes first. */
  function GapLength(s: Text): (n: nat)
    ensures n <= |s| && (forall i :: 0 <= i < n ==> IsSpace(s[i])) && (n < |s| ==> !IsSpace(s[n]))
  {
    if s == [] || !IsSpace(s[0]) then 0 else 1 + GapLength(s[1..])
  }

  /**
   * A text is parsed into a definition exactly if it consists of the name and then the services, at least one, in
   * order, and the name is a lowercase label without z and 9.
   */
  lemma ParsesAs(txt: Text, def: Definition)
    ensures ParseGroupDefinition(txt) == Ok(def) <==>
      && SpacedAs(txt, [def.name] + def.services) && def.services != []
      && LowercaseLabel(def.name) && 'z' !in def.name && '9' !in def.name
  {
    var fields := [def.name] + def.services;
    FieldsIff(txt, fields);
    AcceptedNames(def.name);
    if ParseGroupDefinition(txt) == Ok(def) {
      assert Fields(txt) == fields;
    }
    assert fields[1..] == def.services;
  }

  lemma TooFewIff(txt: Text)
    ensures ParseGroupDefinition(txt) == Err(TooFewFields) <==> exists fields :: SpacedAs(txt, fields) && |fields| < 2
  {
    FieldsIff(txt, Fields(txt));
    if fields :| SpacedAs(txt, fields) && |fields| < 2 {
      FieldsIff(txt, fields);
    }
  }

  /** The fields, one space between each two. */
  function Spaced(fields: seq<Text>): Text {
    if fields == [] then [] else if |fields| == 1 then fields[0] else fields[0] + [' '] + Spaced(fields[1..])
  }

  lemma {:induction false} SpacedFields(fields: seq<Text>)
    requires forall f :: f in fields ==> Token(f)
    ensures Fields(Spaced(fields)) == fields
  {
    if |fields| == 1 {
      TokenThenSpace(fields[0], []);
    } else if fields != [] {
      TokenThenSpace(fields[0], Spaced(fields[1..]));
      SpacedFields(fields[1..]);
    }
  }

  /** Printing a definition of any number of services and parsing it gives them back in order. */
  lemma ParseSpaced(def: Definition)
    requires Token(def.name) && ComplaintAbout(def.name).None?
    requires def.services != [] && forall s :: s in def.services ==> Token(s)
    ensures ParseGroupDefinition(Spaced([def.name] + def.services)) == Ok(def)
  {
    SpacedFields([def.name] + def.services);
    assert ([def.name] + def.services)[1..] == def.services;
  }

  // ---- the same, character by character

  /** Space, tab, newline, vertical tab, form feed and carriage return. */
  const WHITE_SPACE: set<Byte> := {' ', '\t', '\n', '\U{0B}', '\U{0C}', '\r'}

  ghost predicate White(s: Text) { forall c :: c in s ==> c in WHITE_SPACE }

  ghost predicate Visible(s: Text) { s != [] && forall c :: c in s ==> c !in WHITE_SPACE }

  lemma OnlyThese(c: Byte)
    ensures IsSpace(c) <==> c in WHITE_SPACE
  {
  }

  /** Each field with what comes behind it. */
  function Written(fields: seq<Text>, gaps: seq<Text>): Text
    requires |gaps| == |fields|
  {
    if fields == [] then [] else fields[0] + gaps[0] + Written(fields[1..], gaps[1..])
  }

  /** White space between each two fields, and maybe behind the last. */
  ghost predicate Separated(fields: seq<Text>, gaps: seq<Text>) {
    && |gaps| == |fields|
    && (forall i :: 0 <= i < |fields| ==> Visible(fields[i]) && White(gaps[i]))
    && (forall i :: 0 <= i < |gaps| - 1 ==> gaps[i] != [])
  }

  lemma WhiteIsGap(s: Text)
    ensures White(s) <==> Gap(s)
    ensures Visible(s) <==> Token(s)
  {
    forall i | 0 <= i < |s| ensures IsSpace(s[i]) <==> s[i] in WHITE_SPACE { OnlyThese(s[i]); }
  }

  lemma GapThenWritten(lead: Text, fields: seq<Text>, gaps: seq<Text>)
    requires White(lead) && |gaps| == |fields|
    ensures Fields(lead + Written(fields, gaps)) == Fields(Written(fields, gaps))
  {
    var txt := lead + Written(fields, gaps);
    WhiteIsGap(lead);
    assert txt[..|lead|] == lead && txt[|lead|..] == Written(fields, gaps);
    SkipGap(txt, |lead|);
  }

  lemma {:induction false} WrittenFields(fields: seq<Text>, gaps: seq<Text>)
    requires Separated(fields, gaps)
    ensures Fields(Written(fields, gaps)) == fields
  {
    if fields != [] {
      var field, txt, rest := fields[0], Written(fields, gaps), Written(fields[1..], gaps[1..]);
      WhiteIsGap(field);
      WhiteIsGap(gaps[0]);
      assert txt == field + (gaps[0] + rest) && txt[..0] == [];
      assert gaps[0] != [] ==> txt[|field|] == gaps[0][0];
      assert gaps[0] == [] ==> |fields| == 1 && rest == [];
      TakeField(txt, field, 0);
      assert txt[|field|..] == gaps[0] + rest;
      GapThenWritten(gaps[0], fields[1..], gaps[1..]);
      WrittenFields(fields[1..], gaps[1..]);
    }
  }

  /**
   * Fields that hold anything but white space, with any white space between them and maybe around them, are parsed into
   * just that name and those services, in order; or else into the complaint about the name, or about too few.
   */
  lemma ParseWritten(lead: Text, fields: seq<Text>, gaps: seq<Text>)
    requires White(lead) && Separated(fields, gaps)
    ensures ParseGroupDefinition(lead + Written(fields, gaps)) ==
      if |fields| < 2 then Err(TooFewFields)
      else match ComplaintAbout(fields[0])
           case None => Ok(Definition(fields[0], fields[1..]))
           case Some(e) => Err(BadName(e))
  {
    GapThenWritten(lead, fields, gaps);
    WrittenFields(fields, gaps);
  }

  lemma OneMoreWritten(field: Text, gap: Text, fields: seq<Text>, gaps: seq<Text>)
    requires Visible(field) && White(gap) && Separated(fields, gaps) && (fields != [] ==> gap != [])
    ensures Separated([field] + fields, [gap] + gaps)
    ensures Written([field] + fields, [gap] + gaps) == field + (gap + Written(fields, gaps))
  {
    var fields', gaps' := [field] + fields, [gap] + gaps;
    assert fields'[1..] == fields && gaps'[1..] == gaps;
  }

  /** There is no other text. */
  lemma {:induction false} AllAreWritten(txt: Text) returns (lead: Text, fields: seq<Text>, gaps: seq<Text>)
    ensures White(lead) && Separated(fields, gaps) && txt == lead + Written(fields, gaps)
    decreases |txt|
  {
    var n := GapLength(txt);
    WhiteIsGap(txt[..n]);
    if n < |txt| {
      var field, tail := NextField(txt, n);
      var gap, fields', gaps' := AllAreWritten(tail);
      FirstGap(tail, gap, fields', gaps');
      OneMoreWritten(field, gap, fields', gaps');
      return txt[..n], [field] + fields', [gap] + gaps';
    }
    return txt, [], [];
  }

  lemma NextField(txt: Text, n: nat) returns (field: Text, tail: Text)
    requires n < |txt| && Gap(txt[..n]) && !IsSpace(txt[n])
    ensures Visible(field) && txt == txt[..n] + (field + tail) && (tail != [] ==> IsSpace(tail[0]))
  {
    var k := TokenLength(txt[n..]);
    FirstField(txt, n);
    field, tail := txt[n..n + k], txt[n + k..];
    WhiteIsGap(field);
    assert txt[n..] == field + tail;
  }

  /** Behind a field comes white space, or the end. */
  lemma FirstGap(tail: Text, gap: Text, fields: seq<Text>, gaps: seq<Text>)
    requires White(gap) && Separated(fields, gaps) && tail == gap + Written(fields, gaps)
    requires tail != [] ==> IsSpace(tail[0])
    ensures fields != [] ==> gap != []
  {
    if fields != [] && gap == [] {
      assert tail[0] == fields[0][0] && fields[0][0] in fields[0];
      OnlyThese(tail[0]);
      assert false;
    }
  }

  const TAKEN_LETTERS: seq<Byte> := "abcdefghijklmnopqrstuvwxy"
  const TAKEN_DIGITS: seq<Byte> := "012345678"

  ghost predicate TakenFirst(c: Byte) { c in TAKEN_LETTERS }

  ghost predicate TakenLast(c: Byte) { c in TAKEN_LETTERS || c in TAKEN_DIGITS }

  ghost predicate Taken(c: Byte) { TakenLast(c) || c == '-' }

  lemma LetterIff(c: Byte)
    ensures TableLetter(c) <==> c in TAKEN_LETTERS
  {
    if TableLetter(c) {
      assert TAKEN_LETTERS[c as int - 'a' as int] == c;
    }
  }

  lemma DigitIff(c: Byte)
    ensures TableDigit(c) <==> c in TAKEN_DIGITS
  {
    if TableDigit(c) {
      assert TAKEN_DIGITS[c as int - '0' as int] == c;
    }
  }

  /** The first complaint, the characters being spelt out. */
  lemma ComplaintIff(name: Text)
    ensures ComplaintAbout(name) ==
      if name == [] then Some(BlankGroup)
      else if !TakenFirst(name[0]) then Some(InvalidGroupLeading)
      else if !TakenLast(name[|name| - 1]) then Some(InvalidGroupTrailing)
      else if exists i :: 0 < i < |name| - 1 && !Taken(name[i]) then Some(InvalidGroup)
      else None
  {
    forall i | 0 <= i < |name|
      ensures TableLetter(name[i]) <==> TakenFirst(name[i])
      ensures TableLetter(name[i]) || TableDigit(name[i]) <==> TakenLast(name[i])
    {
      LetterIff(name[i]);
      DigitIff(name[i]);
    }
  }
}
