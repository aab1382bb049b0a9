/** The two text forms of the editor: an agent's pairings with people, one a line, and
    a record's labels, one `key=value` a line. Printing and parsing them. */
module Forms {
  import opened Basics
  import opened Text

  // ---- comma separated lists --------------------------------------------------------

  function TrimAll(parts: seq<string>): (r: seq<string>)
    ensures |r| == |parts| && forall i :: 0 <= i < |parts| ==> r[i] == Trim(parts[i])
  {
    seq(|parts|, i requires 0 <= i < |parts| => Trim(parts[i]))
  }

  function NonEmpty(parts: seq<string>): (r: seq<string>)
    ensures forall p :: p in r <==> p in parts && p != ""
  {
    if parts == [] then [] else (if parts[0] != "" then [parts[0]] else []) + NonEmpty(parts[1..])
  }

  function Csv(s: string): seq<string>
  {
    NonEmpty(TrimAll(Split(s, ',')))
  }

  /** Fit to stand in a field: trimmed, within one line, and free of the separator. */
  predicate Tidy(s: string, sep: char)
  {
    Trimmed(s) && sep !in s && '\n' !in s
  }

  /** Fit to stand in a comma separated list in a field. */
  predicate TidyItems(items: seq<string>)
  {
    forall s :: s in items ==> s != "" && ',' !in s && Tidy(s, '|')
  }

  lemma {:induction false} NonEmptyKeeps(items: seq<string>)
    requires "" !in items
    ensures NonEmpty(items) == items
  {
    if items != [] {
      NonEmptyKeeps(items[1..]);
      assert items == [items[0]] + items[1..];
    }
  }

  lemma KeepItems(items: seq<string>)
    requires forall s :: s in items ==> s != "" && Trimmed(s)
    ensures NonEmpty(TrimAll(items)) == items
  {
    forall i | 0 <= i < |items| ensures TrimAll(items)[i] == items[i] {
      TrimOfTrimmed(items[i]);
    }
    assert TrimAll(items) == items;
    NonEmptyKeeps(items);
  }

  lemma {:induction false} NonEmptyInOrder(a: seq<string>, b: seq<string>)
    ensures NonEmpty(a + b) == NonEmpty(a) + NonEmpty(b)
  {
    if a == [] {
      assert a + b == b;
    } else {
      assert (a + b)[1..] == a[1..] + b;
      NonEmptyInOrder(a[1..], b);
    }
  }

  /** A comma separated list is read item by item, each trimmed, the empty ones left out. */
  lemma CsvMeans(items: seq<string>)
    requires items != [] && forall s :: s in items ==> ',' !in s
    ensures Csv(Join(items, ",")) == NonEmpty(TrimAll(items))
  {
    hide Split, Join, Trim;
    SplitJoin(items, ',');
  }

  /** What a comma separated list can hold. */
  predicate Items(items: seq<string>)
  {
    forall s :: s in items ==> s != "" && ',' !in s && Trimmed(s)
  }

  lemma CsvOfJoin(items: seq<string>)
    requires Items(items)
    ensures Csv(Join(items, ",")) == items
  {
    hide Split, Join, Trim, NonEmpty, TrimAll;
    if items == [] {
      CsvOfNothing();
    } else {
      SplitJoin(items, ',');
      KeepItems(items);
    }
  }

  lemma CsvOfNothing()
    ensures Csv(Join([], ",")) == []
  {
  }

  lemma CsvHolds(s: string)
    ensures Items(Csv(s))
  {
    var parts := Split(s, ',');
    forall p | p in Csv(s) ensures p != "" && ',' !in p && Trimmed(p) {
      var i :| 0 <= i < |TrimAll(parts)| && TrimAll(parts)[i] == p;
      assert parts[i] in parts;
    }
  }

  /** A list is read back from its printed form exactly when it is one of non-empty,
      trimmed items without commas. */
  lemma CsvOfJoinExactly(items: seq<string>)
    ensures Csv(Join(items, ",")) == items <==> Items(items)
  {
    hide Csv;
    CsvHolds(Join(items, ","));
    if Items(items) { CsvOfJoin(items); }
  }

  lemma CsvTidy(s: string)
    requires '|' !in s && '\n' !in s
    ensures TidyItems(Csv(s))
  {
    var parts := Split(s, ',');
    forall p | p in Csv(s) ensures p != "" && ',' !in p && Tidy(p, '|') {
      var i :| 0 <= i < |TrimAll(parts)| && TrimAll(parts)[i] == p;
      assert parts[i] in parts;
    }
  }

  // ---- pairings -----------------------------------------------------------------------

  /** A pairing with a declared person, or with somebody named on the spot. */
  datatype Pairing =
    | Person(person: string, roles: seq<string>, approves: seq<string>)
    | Named(name: string, contact: string, roles: seq<string>, approves: seq<string>)

  function Who(h: Pairing): string
  {
    if h.Named? then h.name else if h.person != "" then "person:" + h.person else ""
  }

  function HumanToLine(h: Pairing): string
  {
    Join([Who(h), if h.Named? then h.contact else "", Join(h.roles, ","), Join(h.approves, ",")], " | ")
  }

  function Lines(hs: seq<Pairing>): (r: seq<string>)
    ensures |r| == |hs| && forall i :: 0 <= i < |hs| ==> r[i] == HumanToLine(hs[i])
  {
    seq(|hs|, i requires 0 <= i < |hs| => HumanToLine(hs[i]))
  }

  /** What the form's text box shows. */
  function Print(hs: seq<Pairing>): string
  {
    Join(Lines(hs), "\n")
  }

  function Field(parts: seq<string>, i: nat): string
  {
    if i < |parts| then Trim(parts[i]) else ""
  }

  function Roles(s: string): seq<string>
  {
    if Csv(s) == [] then ["owner"] else Csv(s)
  }

  const PERSON := "person:"

  /** Who and what the fields of a line say. */
  function FromFields(who: string, contact: string, roles: string, approves: string): Pairing
  {
    if PERSON <= who then Person(Trim(who[|PERSON|..]), Roles(roles), Csv(approves))
    else Named(who, contact, Roles(roles), Csv(approves))
  }

  function ParseLine(line: string): Pairing
  {
    var parts := Split(line, '|');
    FromFields(Field(parts, 0), Field(parts, 1), Field(parts, 2), Field(parts, 3))
  }

  function ParseLines(lines: seq<string>): (hs: seq<Pairing>)
    ensures |hs| == |lines| && forall i :: 0 <= i < |lines| ==> hs[i] == ParseLine(lines[i])
  {
    seq(|lines|, i requires 0 <= i < |lines| => ParseLine(lines[i]))
  }

  function NotBlank(lines: seq<string>): (r: seq<string>)
    ensures forall l :: l in r ==> l in lines
  {
    if lines == [] then [] else (if Blank(lines[0]) then [] else [lines[0]]) + NotBlank(lines[1..])
  }

  function ParseHumans(text: string): seq<Pairing>
  {
    ParseLines(NotBlank(Split(text, '\n')))
  }

  lemma NotBlankFirst(line: string, rest: seq<string>)
    ensures NotBlank([line] + rest) == (if Blank(line) then [] else [line]) + NotBlank(rest)
  {
    hide Blank;
    assert ([line] + rest)[1..] == rest;
  }

  lemma {:induction false} NotBlankInOrder(a: seq<string>, b: seq<string>)
    ensures NotBlank(a + b) == NotBlank(a) + NotBlank(b)
  {
    if a == [] {
      assert a + b == b;
    } else {
      hide Blank, NotBlank;
      var line, rest := a[0], a[1..];
      assert a == [line] + rest;
      Regroup([line], rest, b);
      NotBlankFirst(line, rest);
      NotBlankFirst(line, rest + b);
      NotBlankInOrder(rest, b);
      Regroup(if Blank(line) then [] else [line], NotBlank(rest), NotBlank(b));
    }
  }

  lemma OneNotBlank(line: string)
    ensures NotBlank([line]) == if AllSpace(line) then [] else [line]
  {
    BlankMeans(line);
    hide Blank, AllSpace;
  }

  /** What a line of the form is read as, field by field: a reference if it begins so, else
      somebody named; the roles, or owner; and what is approved. */
  lemma LineMeans(a: string, b: string, c: string, d: string)
    requires '|' !in a && '|' !in b && '|' !in c && '|' !in d
    ensures var h := ParseLine(a + ['|'] + (b + ['|'] + (c + ['|'] + d)));
            && h.Person? == ("person:" <= Trim(a))
            && (h.Person? ==> h.person == Trim(Trim(a)[7..]))
            && (h.Named? ==> h.name == Trim(a) && h.contact == Trim(b))
            && h.roles == (if Csv(Trim(c)) == [] then ["owner"] else Csv(Trim(c)))
            && h.approves == Csv(Trim(d))
  {
    hide Csv, Trim;
    FourSplit(a, b, c, d);
  }

  /** What is printed for somebody named, and for a reference. */
  lemma PrintedOnFields(name: string, contact: string, roles: seq<string>, approves: seq<string>)
    ensures HumanToLine(Named(name, contact, roles, approves))
            == (name + " ") + ['|'] + ((" " + contact + " ") + ['|']
               + ((" " + Join(roles, ",") + " ") + ['|'] + (" " + Join(approves, ","))))
    ensures name != "" ==>
              HumanToLine(Person(name, roles, approves))
              == ("person:" + name + " ") + ['|'] + ((" " + "" + " ") + ['|']
                 + ((" " + Join(roles, ",") + " ") + ['|'] + (" " + Join(approves, ","))))
  {
    hide Join;
    JoinOfFour(name, contact, Join(roles, ","), Join(approves, ","));
    JoinOfFour("person:" + name, "", Join(roles, ","), Join(approves, ","));
  }

  /** A pairing the form can carry, except that a reference may be empty. */
  predicate Carried(h: Pairing)
  {
    && h.roles != [] && TidyItems(h.roles) && TidyItems(h.approves)
    && (if h.Person? then Tidy(h.person, '|')
        else Tidy(h.name, '|') && Tidy(h.contact, '|') && !(PERSON <= h.name))
  }

  predicate EmptyReference(h: Pairing)
  {
    h.Person? && h.person == ""
  }

  /** What one trip through the form does: only an empty reference is lost. */
  function Settled(h: Pairing): Pairing
  {
    if EmptyReference(h) then Named("", "", h.roles, h.approves) else h
  }

  lemma FourSplit(w: string, x: string, y: string, z: string)
    requires '|' !in w && '|' !in x && '|' !in y && '|' !in z
    ensures Split(w + ['|'] + (x + ['|'] + (y + ['|'] + z)), '|') == [w, x, y, z]
  {
    hide Split;
    SplitFirst(w, '|', x + ['|'] + (y + ['|'] + z));
    SplitFirst(x, '|', y + ['|'] + z);
    SplitFirst(y, '|', z);
    SplitWhole(z, '|');
    assert [w] + ([x] + ([y] + [z])) == [w, x, y, z];
  }

  predicate OnOneLine(s: string)
  {
    '|' !in s && '\n' !in s
  }

  lemma FourFields(a: string, b: string, c: string, d: string, line: string)
    requires OnOneLine(a) && OnOneLine(b) && OnOneLine(c) && OnOneLine(d)
    requires line == Join([a, b, c, d], " | ")
    ensures Split(line, '|') == [a + " ", " " + b + " ", " " + c + " ", " " + d]
  {
    JoinOfFour(a, b, c, d);
    FourSplit(a + " ", " " + b + " ", " " + c + " ", " " + d);
  }

  lemma FourFieldsLine(a: string, b: string, c: string, d: string, line: string)
    requires OnOneLine(a) && OnOneLine(b) && OnOneLine(c) && OnOneLine(d)
    requires line == Join([a, b, c, d], " | ")
    ensures '\n' !in line && !Blank(line)
  {
    JoinOfFour(a, b, c, d);
    var rest := (" " + b + " ") + ['|'] + ((" " + c + " ") + ['|'] + (" " + d));
    assert '\n' !in rest;
    assert line[|a| + 1] == '|';
    VisibleNotBlank(line, '|');
  }

  lemma JoinOfFour(a: string, b: string, c: string, d: string)
    ensures Join([a, b, c, d], " | ")
            == (a + " ") + ['|'] + ((" " + b + " ") + ['|'] + ((" " + c + " ") + ['|'] + (" " + d)))
  {
    assert [a, b, c, d][1..] == [b, c, d] && [b, c, d][1..] == [c, d] && [c, d][1..] == [d];
    assert " | " == [' ', '|', ' '];
    assert Join([d], " | ") == d;
    assert Join([c, d], " | ") == c + " | " + d;
    assert Join([b, c, d], " | ") == b + " | " + Join([c, d], " | ");
  }

  lemma {:induction false} JoinedItemsTidy(items: seq<string>)
    requires TidyItems(items)
    ensures Tidy(Join(items, ","), '|') && (items != [] ==> Join(items, ",") != "")
  {
    if items != [] {
      assert items[0] in items;
      if |items| > 1 {
        assert forall s :: s in items[1..] ==> s in items;
        JoinedItemsTidy(items[1..]);
        JoinTwoTidy(items[0], Join(items[1..], ","));
      }
    }
  }

  lemma JoinTwoTidy(s: string, rest: string)
    requires Tidy(s, '|') && Tidy(rest, '|') && s != "" && rest != ""
    ensures Tidy(s + "," + rest, '|')
  {
  }

  /** The fields of a line printed from four tidy texts. */
  lemma FieldsOfPrinted(a: string, b: string, c: string, d: string, parts: seq<string>)
    requires Trimmed(a) && Trimmed(b) && Trimmed(c) && Trimmed(d)
    requires parts == [a + " ", " " + b + " ", " " + c + " ", " " + d]
    ensures Field(parts, 0) == a && Field(parts, 1) == b && Field(parts, 2) == c && Field(parts, 3) == d
  {
    hide Trim;
    BlankEnd(a);
    BlankEnds(b);
    BlankEnds(c);
    BlankStart(d);
  }

  lemma BlankEnd(s: string)
    requires Trimmed(s)
    ensures Trim(s + " ") == s
  {
    TrimBlanks(s);
  }

  lemma BlankStart(s: string)
    requires Trimmed(s)
    ensures Trim(" " + s) == s
  {
    TrimBlanks(s);
  }

  lemma BlankEnds(s: string)
    requires Trimmed(s)
    ensures Trim(" " + s + " ") == s
  {
    TrimBlanks(s);
  }

  lemma RolesOfJoin(roles: seq<string>)
    requires TidyItems(roles) && roles != []
    ensures Roles(Join(roles, ",")) == roles
  {
    CsvOfJoin(roles);
  }

  lemma PersonField(id: string)
    requires Tidy(id, '|') && id != ""
    ensures var who := PERSON + id; Tidy(who, '|') && PERSON <= who && Trim(who[|PERSON|..]) == id
  {
    TrimOfTrimmed(id);
    assert (PERSON + id)[|PERSON|..] == id;
  }

  lemma FromOwnFields(h: Pairing)
    requires Carried(h)
    ensures FromFields(Who(h), if h.Named? then h.contact else "", Join(h.roles, ","), Join(h.approves, ","))
            == Settled(h)
  {
    RolesOfJoin(h.roles);
    CsvOfJoin(h.approves);
    if h.Person? && h.person != "" {
      PersonField(h.person);
    }
  }

  lemma WhoTidy(h: Pairing)
    requires Carried(h)
    ensures Tidy(Who(h), '|')
  {
    if h.Person? && h.person != "" { PersonField(h.person); }
  }

  /** One line read back. */
  lemma ParsePrinted(h: Pairing)
    requires Carried(h)
    ensures ParseLine(HumanToLine(h)) == Settled(h)
    ensures '\n' !in HumanToLine(h) && !Blank(HumanToLine(h))
  {
    var contact := if h.Named? then h.contact else "";
    WhoTidy(h);
    JoinedItemsTidy(h.roles);
    JoinedItemsTidy(h.approves);
    FromOwnFields(h);
    LineReadsBack(Who(h), contact, Join(h.roles, ","), Join(h.approves, ","), HumanToLine(h));
  }

  /** A pairing without a role comes back as an owner, and otherwise as it was. */
  lemma RolelessBecomesOwner(h: Pairing)
    requires h.roles == [] && Carried(h.(roles := ["owner"]))
    ensures ParseLine(HumanToLine(h)) == Settled(h.(roles := ["owner"]))
    ensures '\n' !in HumanToLine(h) && !Blank(HumanToLine(h))
  {
    var owner, contact := h.(roles := ["owner"]), if h.Named? then h.contact else "";
    WhoTidy(owner);
    JoinedItemsTidy(h.approves);
    FromOwnFields(owner);
    NoRolesIsOwner();
    LineReadsBack(Who(h), contact, "", Join(h.approves, ","), HumanToLine(h));
  }

  lemma NoRolesIsOwner()
    ensures Join([], ",") == "" && Roles("") == ["owner"] && Roles(Join(["owner"], ",")) == ["owner"]
  {
    hide Csv;
    CsvOfNothing();
    CsvOfJoin(["owner"]);
  }

  lemma LineReadsBack(a: string, b: string, c: string, d: string, line: string)
    requires Tidy(a, '|') && Tidy(b, '|') && Tidy(c, '|') && Tidy(d, '|')
    requires line == Join([a, b, c, d], " | ")
    ensures ParseLine(line) == FromFields(a, b, c, d)
    ensures '\n' !in line && !Blank(line)
  {
    FourFields(a, b, c, d, line);
    FieldsOfPrinted(a, b, c, d, Split(line, '|'));
    FourFieldsLine(a, b, c, d, line);
  }

  function SettledAll(hs: seq<Pairing>): (r: seq<Pairing>)
    ensures |r| == |hs| && forall i :: 0 <= i < |hs| ==> r[i] == Settled(hs[i])
  {
    seq(|hs|, i requires 0 <= i < |hs| => Settled(hs[i]))
  }

  lemma {:induction false} NoneBlank(lines: seq<string>)
    requires forall l :: l in lines ==> !Blank(l)
    ensures NotBlank(lines) == lines
  {
    if lines != [] {
      assert lines[0] in lines;
      NoneBlank(lines[1..]);
      assert lines == [lines[0]] + lines[1..];
    }
  }

  /** Printing and parsing is the identity, but for empty references. */
  lemma ParseOfPrint(hs: seq<Pairing>)
    requires forall h :: h in hs ==> Carried(h)
    ensures ParseHumans(Print(hs)) == SettledAll(hs)
  {
    var lines := Lines(hs);
    forall i | 0 <= i < |hs|
      ensures ParseLine(lines[i]) == Settled(hs[i]) && '\n' !in lines[i] && !Blank(lines[i])
    {
      ParsePrinted(hs[i]);
    }
    NoneBlank(lines);
    assert ParseLines(lines) == SettledAll(hs);
    if hs == [] {
      EmptyText();
    } else {
      SplitJoin(lines, '\n');
    }
  }

  lemma EmptyText()
    ensures NotBlank(Split("", '\n')) == []
  {
    hide Split;
    NothingSplits('\n');
    assert [""][1..] == [];
    assert Blank("");
  }

  /** Whatever is parsed is something the form can carry. */
  lemma FromFieldsCarried(who: string, contact: string, roles: string, approves: string)
    requires Tidy(who, '|') && Tidy(contact, '|') && Tidy(roles, '|') && Tidy(approves, '|')
    ensures Carried(FromFields(who, contact, roles, approves))
  {
    RolesTidy(roles);
    CsvTidy(approves);
    if PERSON <= who { RestTidy(who); }
  }

  lemma RolesTidy(s: string)
    requires Tidy(s, '|')
    ensures Roles(s) != [] && TidyItems(Roles(s))
  {
    hide Csv;
    CsvTidy(s);
  }

  lemma RestTidy(who: string)
    requires Tidy(who, '|') && PERSON <= who
    ensures Tidy(Trim(who[|PERSON|..]), '|')
  {
  }

  lemma FieldTidy(parts: seq<string>, i: nat)
    requires forall p :: p in parts ==> '|' !in p && '\n' !in p
    ensures Tidy(Field(parts, i), '|')
  {
  }

  lemma ParsedLineCarried(line: string)
    requires '\n' !in line
    ensures Carried(ParseLine(line))
  {
    var parts := Split(line, '|');
    FieldTidy(parts, 0);
    FieldTidy(parts, 1);
    FieldTidy(parts, 2);
    FieldTidy(parts, 3);
    FromFieldsCarried(Field(parts, 0), Field(parts, 1), Field(parts, 2), Field(parts, 3));
  }

  lemma ParsedCarried(text: string)
    ensures forall h :: h in ParseHumans(text) ==> Carried(h)
  {
    var lines := NotBlank(Split(text, '\n'));
    forall i | 0 <= i < |lines| ensures Carried(ParseLine(lines[i])) {
      assert lines[i] in Split(text, '\n');
      ParsedLineCarried(lines[i]);
    }
  }

  /** Opening the form on what was parsed and typing nothing leaves it as it was, exactly
      when no reference is empty. */
  lemma ReparseExactly(text: string)
    ensures var hs := ParseHumans(text);
            (forall h :: h in hs ==> Carried(h))
            && (ParseHumans(Print(hs)) == hs <==> forall h :: h in hs ==> !EmptyReference(h))
  {
    var hs := ParseHumans(text);
    ParsedCarried(text);
    ParseOfPrint(hs);
    SettledSame(hs);
  }

  /** Any pairings at all survive the form exactly when each can be carried by it, roles
      included, and no reference is empty. */
  lemma FormRoundTripExactly(hs: seq<Pairing>)
    ensures ParseHumans(Print(hs)) == hs <==> forall h :: h in hs ==> Carried(h) && !EmptyReference(h)
  {
    hide ParseHumans;
    ParsedCarried(Print(hs));
    if forall h :: h in hs ==> Carried(h) {
      ParseOfPrint(hs);
      SettledSame(hs);
    }
  }

  const ANN := Named("ann", "", [], [])

  /** Somebody named without a role, whom opening the form and typing anything makes an
      owner. */
  lemma AnnBecomesOwner()
    ensures ParseHumans(Print([ANN])) == [Named("ann", "", ["owner"], [])] != [ANN]
  {
    hide Split, Trim, Trimmed;
    AnnCarried();
    RolelessBecomesOwner(ANN);
    OneLine(ANN);
  }

  lemma AnnCarried()
    ensures Carried(ANN.(roles := ["owner"]))
  {
  }

  lemma OneLine(h: Pairing)
    requires '\n' !in HumanToLine(h) && !Blank(HumanToLine(h))
    ensures ParseHumans(Print([h])) == [ParseLine(HumanToLine(h))]
  {
    var line := HumanToLine(h);
    assert Lines([h]) == [line];
    assert Join([line], "\n") == line;
    SplitWhole(line, '\n');
    assert NotBlank([line]) == [line];
    assert ParseLines([line]) == [ParseLine(line)];
  }

  lemma SettledSame(hs: seq<Pairing>)
    ensures SettledAll(hs) == hs <==> forall h :: h in hs ==> !EmptyReference(h)
  {
  }

  // ---- labels -----------------------------------------------------------------------

  datatype Label = Label(key: string, value: string)

  function LabelLines(labels: seq<Label>): (r: seq<string>)
    ensures |r| == |labels| && forall i :: 0 <= i < |labels| ==> r[i] == labels[i].key + "=" + labels[i].value
  {
    seq(|labels|, i requires 0 <= i < |labels| => labels[i].key + "=" + labels[i].value)
  }

  function LabelsToText(labels: seq<Label>): string
  {
    Join(LabelLines(labels), "\n")
  }

  /** The key before the first `=`, and the value after it, later `=` included. */
  function ReadLabel(line: string): Label
  {
    var parts := Split(line, '=');
    Label(Trim(parts[0]), Trim(Join(parts[1..], "=")))
  }

  function ReadLines(lines: seq<string>): (r: seq<Label>)
    ensures |r| == |lines|
  {
    seq(|lines|, i requires 0 <= i < |lines| => ReadLabel(lines[i]))
  }

  /** The labels with a key; a later one with the same key wins. */
  function Collected(labels: seq<Label>): map<string, string>
  {
    if labels == [] then map[]
    else
      var before, l := Collected(labels[..|labels| - 1]), labels[|labels| - 1];
      if l.key != "" then before[l.key := l.value] else before
  }

  function ReadText(text: string): map<string, string>
  {
    Collected(ReadLines(Split(text, '\n')))
  }

  /** A line's key is what stands before its first `=` and its value all that comes after. */
  lemma ReadLabelMeans(key: string, value: string)
    requires '=' !in key
    ensures ReadLabel(key + "=" + value) == Label(Trim(key), Trim(value))
    ensures ReadLabel(key) == Label(Trim(key), Trim(""))
  {
    hide Trim;
    SplitFirst(key, '=', value);
    assert Split(key + "=" + value, '=')[1..] == Split(value, '=');
    JoinSplit(value, '=');
    SplitWhole(key, '=');
    assert Join([key][1..], "=") == "";
  }

  /** The last label of a key is the one collected; a key without a label is none. */
  lemma {:induction false} CollectedMeans(labels: seq<Label>, k: string)
    ensures k in Collected(labels) <==> k != "" && exists l :: l in labels && l.key == k
    ensures k != "" ==>
              forall i :: 0 <= i < |labels| && labels[i].key == k
                          && (forall j :: i < j < |labels| ==> labels[j].key != k) ==>
                k in Collected(labels) && Collected(labels)[k] == labels[i].value
  {
    if labels != [] {
      var n := |labels| - 1;
      CollectedMeans(labels[..n], k);
      assert labels == labels[..n] + [labels[n]];
    }
  }

  method LabelsFromText(text: string) returns (out: map<string, string>)
    ensures out == ReadText(text)
  {
    hide ReadLines;
    out := map[];
    var lines := Split(text, '\n');
    var labels := ReadLines(lines);
    for i := 0 to |lines|
      invariant out == Collected(labels[..i])
    {
      assert labels[..i + 1][..i] == labels[..i];
      var l := labels[i];
      if l.key != "" {
        out := out[l.key := l.value];
      }
    }
    assert labels[..|lines|] == labels;
  }

  predicate TidyLabel(l: Label)
  {
    l.key != "" && Tidy(l.key, '=') && Trimmed(l.value) && '\n' !in l.value
  }

  lemma ReadPrintedLabel(l: Label)
    requires TidyLabel(l)
    ensures ReadLabel(l.key + "=" + l.value) == l
  {
    SplitFirst(l.key, '=', l.value);
    assert Split(l.key + "=" + l.value, '=')[1..] == Split(l.value, '=');
    JoinSplit(l.value, '=');
    TrimOfTrimmed(l.key);
    TrimOfTrimmed(l.value);
  }

  /** What is printed is read back label by label. */
  lemma ReadOfPrint(labels: seq<Label>)
    requires forall l :: l in labels ==> TidyLabel(l)
    ensures ReadText(LabelsToText(labels)) == Collected(labels)
  {
    var lines := LabelLines(labels);
    if labels == [] {
      EmptyLabels();
    } else {
      forall i | 0 <= i < |labels| ensures ReadLabel(lines[i]) == labels[i] && '\n' !in lines[i] {
        assert labels[i] in labels;
        ReadPrintedLabel(labels[i]);
      }
      SplitJoin(lines, '\n');
      assert ReadLines(lines) == labels;
    }
  }

  lemma EmptyLabels()
    ensures ReadText("") == map[]
  {
  }

  predicate TidyMap(m: map<string, string>)
  {
    forall k :: k in m ==> TidyLabel(Label(k, m[k]))
  }

  lemma {:induction false} CollectedTidy(labels: seq<Label>)
    requires forall l :: l in labels && l.key != "" ==> TidyLabel(l)
    ensures TidyMap(Collected(labels))
  {
    if labels != [] {
      var n := |labels| - 1;
      assert forall l :: l in labels[..n] ==> l in labels;
      assert labels[n] in labels;
      CollectedTidy(labels[..n]);
    }
  }

  lemma ReadTextTidy(text: string)
    ensures TidyMap(ReadText(text))
  {
    var lines := Split(text, '\n');
    forall i | 0 <= i < |lines| ensures var l := ReadLines(lines)[i]; l.key != "" ==> TidyLabel(l) {
      assert lines[i] in lines;
      ReadTidy(lines[i]);
    }
    CollectedTidy(ReadLines(lines));
  }

  lemma ReadTidy(line: string)
    requires '\n' !in line
    ensures var l := ReadLabel(line); l.key != "" ==> TidyLabel(l)
  {
    var parts := Split(line, '=');
    assert parts[0] in parts;
    var value := Join(parts[1..], "=");
    if '\n' in value {
      assert forall p :: p in parts[1..] ==> p in parts;
      JoinChars(parts[1..], "=", '\n');
    }
  }

  predicate Lists(labels: seq<Label>, m: map<string, string>)
  {
    && (forall i, j :: 0 <= i < j < |labels| ==> labels[i].key != labels[j].key)
    && (forall l :: l in labels ==> l.key in m && m[l.key] == l.value)
    && (forall k :: k in m ==> Label(k, m[k]) in labels)
  }

  lemma {:induction false} CollectedLists(labels: seq<Label>, k: string)
    requires forall i, j :: 0 <= i < j < |labels| ==> labels[i].key != labels[j].key
    requires forall i :: 0 <= i < |labels| ==> labels[i].key != ""
    ensures k in Collected(labels) <==> exists i :: 0 <= i < |labels| && labels[i].key == k
    ensures forall i :: 0 <= i < |labels| && labels[i].key == k ==>
              k in Collected(labels) && Collected(labels)[k] == labels[i].value
  {
    if labels != [] {
      var n := |labels| - 1;
      CollectedLists(labels[..n], k);
      assert forall i :: 0 <= i < n ==> labels[..n][i] == labels[i];
    }
  }

  lemma ListsIsMap(labels: seq<Label>, m: map<string, string>)
    requires Lists(labels, m) && forall k :: k in m ==> k != ""
    ensures Collected(labels) == m
  {
    assert forall i :: 0 <= i < |labels| ==> labels[i] in labels;
    forall k ensures k in Collected(labels) <==> k in m
      ensures k in m ==> Collected(labels)[k] == m[k]
    {
      CollectedLists(labels, k);
      if k in m {
        assert Label(k, m[k]) in labels;
      }
    }
  }

  /** However a map's labels are listed, printing and reading gives the map back exactly
      when its keys and values are tidy; a value may contain `=`, a key may not. */
  lemma LabelsRoundTripExactly(labels: seq<Label>, m: map<string, string>)
    requires Lists(labels, m)
    ensures ReadText(LabelsToText(labels)) == m <==> TidyMap(m)
  {
    ReadTextTidy(LabelsToText(labels));
    if TidyMap(m) {
      forall l | l in labels ensures TidyLabel(l) { assert l == Label(l.key, m[l.key]); }
      ReadOfPrint(labels);
      ListsIsMap(labels, m);
    }
  }

  /** What was read from any text is printed and read again without change. */
  lemma RereadLabels(text: string, labels: seq<Label>)
    requires Lists(labels, ReadText(text))
    ensures ReadText(LabelsToText(labels)) == ReadText(text)
  {
    ReadTextTidy(text);
    LabelsRoundTripExactly(labels, ReadText(text));
  }
}
