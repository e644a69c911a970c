/** src/config/Config.cpp: reading and rewriting the configuration file. */
module Configuration {
  import opened Basics
  import opened StringUtil

  datatype Config = Config(interval: int, interface: string, promiscuous: bool, immediate: bool,
                           dbPath: string, processCacheSize: int, serverPort: int)

  const DEFAULTS: Config := Config(10, "", false, false, "", 5, 13889)

  // ----- reading

  type Items = map<string, string>

  function AddLine(items: Items, line: string): Items {
    if line == "" || line[0] == '#' || line[0] == '[' then items
    else
      var delim := Find(line, '=');
      if delim == |line| then items
      else items[Trim(line[..delim]) := Trim(line[delim + 1..])]
  }

  function ItemsOf(lines: seq<string>): Items {
    if lines == [] then map[] else AddLine(ItemsOf(lines[..|lines| - 1]), lines[|lines| - 1])
  }

  function IntItem(items: Items, key: string, default: int): int {
    if key !in items then default
    else match Stoi(items[key])
         case Parsed(n) => n
         case _ => default
  }

  function StringItem(items: Items, key: string, default: string): string {
    if key in items then items[key] else default
  }

  function BoolItem(items: Items, key: string, default: bool): bool {
    if key !in items then default
    else match StringToBool(Lower(items[key]))
         case Some(b) => b
         case None => default
  }

  function FromItems(items: Items): Config {
    var d := DEFAULTS;
    Config(IntItem(items, "interval", d.interval), StringItem(items, "interface", d.interface),
           BoolItem(items, "promiscuous", d.promiscuous), BoolItem(items, "immediate", d.immediate),
           StringItem(items, "dbPath", d.dbPath), IntItem(items, "processCacheSize", d.processCacheSize),
           IntItem(items, "port", d.serverPort) % TWO_TO_THE_16)
  }

  /** The configuration a file text means. */
  function Parse(text: string): Config {
    FromItems(ItemsOf(Split(text, '\n')))
  }

  // ----- writing

  /** One item of the file with the lines above it. */
  datatype Block = Block(above: seq<string>, key: string, value: string)

  function ItemLine(key: string, value: string): string {
    key + " = " + value
  }

  function BlockLines(b: Block): seq<string> {
    b.above + [ItemLine(b.key, b.value)]
  }

  function FileLines(blocks: seq<Block>): seq<string> {
    if blocks == [] then [] else FileLines(blocks[..|blocks| - 1]) + BlockLines(blocks[|blocks| - 1])
  }

  function BoolText(b: bool): string {
    if b then "true" else "false"
  }

  const COMMENTS := 15

  /** The texts of the comment lines, in file order. */
  ghost predicate CommentTexts(notes: seq<string>) {
    |notes| == COMMENTS && forall n :: n in notes ==> '\n' !in n
  }

  function Comment(note: string): string {
    "#" + note
  }

  function Layout(c: Config, notes: seq<string>): seq<Block>
    requires |notes| == COMMENTS
  {
    [ Block([Comment(notes[0]), "", "[ntmd]", "", Comment(notes[1]), Comment(notes[2])],
            "interval", IntToString(c.interval)),
      Block(["", Comment(notes[3]), Comment(notes[4]), Comment(notes[5]), Comment(notes[6])],
            "processCacheSize", IntToString(c.processCacheSize)),
      Block(["", "[network]", "", Comment(notes[7]), Comment(notes[8])], "interface", c.interface),
      Block(["", "[pcap]", "", Comment(notes[9])], "promiscuous", BoolText(c.promiscuous)),
      Block(["", Comment(notes[10]), Comment(notes[11])], "immediate", BoolText(c.immediate)),
      Block(["", "[database]", "", Comment(notes[12]), Comment(notes[13])], "dbPath", c.dbPath),
      Block(["", "[api]", "", Comment(notes[14])], "port", IntToString(c.serverPort)) ]
  }

  /** The file text written for a configuration. */
  function Print(c: Config, notes: seq<string>): string
    requires |notes| == COMMENTS
  {
    Terminate(FileLines(Layout(c, notes)), '\n')
  }

  // ----- reading back what was written

  predicate OneLine(s: string) {
    Trimmed(s) && '\n' !in s
  }

  /** A configuration the file format can carry. */
  predicate WellFormed(c: Config) {
    && -TWO_TO_THE_31 <= c.interval < TWO_TO_THE_31
    && -TWO_TO_THE_31 <= c.processCacheSize < TWO_TO_THE_31
    && 0 <= c.serverPort < TWO_TO_THE_16
    && OneLine(c.interface) && OneLine(c.dbPath)
  }

  predicate Ignored(line: string) {
    line == "" || line[0] == '#' || line[0] == '['
  }

  predicate PlainKey(key: string) {
    key != "" && Trimmed(key) && '=' !in key && '\n' !in key && key[0] != '#' && key[0] != '['
  }

  ghost predicate PlainBlock(b: Block) {
    && IgnoredText(b.above)
    && PlainKey(b.key) && OneLine(b.value)
  }

  /** A line spelled out: white space, possibly none, around a key and a value. */
  ghost predicate Spelled(line: string, a: string, key: string, b: string, c: string, value: string, d: string) {
    && AllSpace(a) && AllSpace(b) && AllSpace(c) && AllSpace(d)
    && line == (a + key + b) + "=" + (c + value + d)
  }

  /** The line gives the key this value. */
  ghost predicate IsItem(line: string, key: string, value: string) {
    && line != "" && line[0] != '#' && line[0] != '['
    && Trimmed(key) && '=' !in key && Trimmed(value)
    && exists a, b, c, d :: Spelled(line, a, key, b, c, value, d)
  }

  /** The line gives nothing. */
  predicate IsNoItem(line: string) {
    line == "" || line[0] == '#' || line[0] == '[' || '=' !in line
  }

  lemma FirstSign(left: string, right: string)
    requires '=' !in left
    ensures var line := left + "=" + right;
            Find(line, '=') == |left| && line[..|left|] == left && line[|left| + 1..] == right
  {
    hide FindFrom;
    var line := left + "=" + right;
    assert line[|left|] == '=';
    assert forall k :: 0 <= k < |left| ==> line[k] == left[k];
  }

  lemma NoSignInSpace(s: string)
    requires AllSpace(s)
    ensures '=' !in s
  {
  }

  /** A line gives the key the value, whatever white space is around them. */
  lemma ItemReads(items: Items, line: string, key: string, value: string)
    requires IsItem(line, key, value)
    ensures AddLine(items, line) == items[key := value] && !IsNoItem(line)
  {
    var a, b, c, d :| Spelled(line, a, key, b, c, value, d);
    NoSignInSpace(a);
    NoSignInSpace(b);
    FirstSign(a + key + b, c + value + d);
    TrimPadded(a, key, b);
    TrimPadded(c, value, d);
    hide Trim, AllSpace;
  }

  /** Every line gives nothing and changes nothing, or gives one key a value. */
  lemma EveryLine(items: Items, line: string) returns (key: string, value: string)
    ensures if IsNoItem(line) then AddLine(items, line) == items else IsItem(line, key, value)
  {
    hide Trim, AllSpace, Trimmed;
    key, value := "", "";
    if !IsNoItem(line) {
      var i := Find(line, '=');
      key, value := Trim(line[..i]), Trim(line[i + 1..]);
      var a, b := TrimIsSlice(line[..i]);
      var c, d := TrimIsSlice(line[i + 1..]);
      assert line == line[..i] + "=" + line[i + 1..];
      assert Spelled(line, a, key, b, c, value, d);
      if '=' in key {
        TrimKeeps(line[..i], '=');
      }
    }
  }

  lemma ItemLineReads(items: Items, key: string, value: string)
    requires PlainKey(key) && OneLine(value)
    ensures AddLine(items, ItemLine(key, value)) == items[key := value]
    ensures '\n' !in ItemLine(key, value)
  {
    var line := ItemLine(key, value);
    assert line[0] == key[0];
    NoSpaceAndOne();
    assert line == ("" + key + " ") + "=" + (" " + value + "");
    assert Spelled(line, "", key, " ", " ", value, "");
    ItemReads(items, line, key, value);
    hide AddLine;
  }

  lemma NoSpaceAndOne()
    ensures AllSpace("") && AllSpace(" ")
  {
  }

  lemma {:induction false} IgnoredLines(before: seq<string>, above: seq<string>)
    requires forall l :: l in above ==> Ignored(l)
    ensures ItemsOf(before + above) == ItemsOf(before)
  {
    if above == [] {
      assert before + above == before;
    } else {
      var init := above[..|above| - 1];
      IgnoredLines(before, init);
      assert (before + above)[..|before + above| - 1] == before + init;
      assert above[|above| - 1] in above;
    }
  }

  /** The items read from the lines of plain blocks are their keys and values, the last one winning. */
  function BlockItems(blocks: seq<Block>): Items {
    if blocks == [] then map[]
    else BlockItems(blocks[..|blocks| - 1])[blocks[|blocks| - 1].key := blocks[|blocks| - 1].value]
  }

  lemma {:induction false} BlocksRead(blocks: seq<Block>)
    requires forall b :: b in blocks ==> PlainBlock(b)
    ensures ItemsOf(FileLines(blocks)) == BlockItems(blocks)
    ensures forall l :: l in FileLines(blocks) ==> '\n' !in l
  {
    if blocks != [] {
      var init, b := blocks[..|blocks| - 1], blocks[|blocks| - 1];
      assert b in blocks;
      BlocksRead(init);
      var before := FileLines(init) + b.above;
      IgnoredLines(FileLines(init), b.above);
      ItemLineReads(ItemsOf(before), b.key, b.value);
      var all := FileLines(blocks);
      assert all == before + [ItemLine(b.key, b.value)];
      assert all[..|all| - 1] == before;
    }
  }

  lemma KeysArePlain()
    ensures PlainKey("interval") && PlainKey("processCacheSize") && PlainKey("interface") && PlainKey("promiscuous")
    ensures PlainKey("immediate") && PlainKey("dbPath") && PlainKey("port")
  {
    LettersArePlain("interval");
    LettersArePlain("processCacheSize");
    LettersArePlain("interface");
    LettersArePlain("promiscuous");
    LettersArePlain("immediate");
    LettersArePlain("dbPath");
    LettersArePlain("port");
    hide PlainKey;
  }

  lemma LettersArePlain(key: string)
    requires key != "" && forall i :: 0 <= i < |key| ==> key[i] >= 'A'
    requires key[0] != '['
    ensures PlainKey(key)
  {
  }

  lemma BoolTextIsOneLine(b: bool)
    ensures OneLine(BoolText(b))
  {
  }

  ghost predicate IgnoredText(above: seq<string>) {
    forall l :: l in above ==> Skipped(l)
  }

  predicate Skipped(line: string) {
    Ignored(line) && '\n' !in line
  }

  /** The commentary of every block is ignored text. */
  lemma AboveIsIgnored(c: Config, notes: seq<string>, i: nat)
    requires CommentTexts(notes) && i < 7
    ensures IgnoredText(Layout(c, notes)[i].above)
  {
    hide IntToString, BoolText;
    forall k | 0 <= k < COMMENTS ensures Skipped(Comment(notes[k])) {
      assert notes[k] in notes;
    }
    assert Skipped("") && Skipped("[ntmd]") && Skipped("[network]");
    assert Skipped("[pcap]") && Skipped("[database]") && Skipped("[api]");
    hide Skipped, Comment;
    var above := Layout(c, notes)[i].above;
    assert forall j :: 0 <= j < |above| ==> Skipped(above[j]);
  }

  lemma LayoutIsPlain(c: Config, notes: seq<string>)
    requires CommentTexts(notes) && WellFormed(c)
    ensures forall b :: b in Layout(c, notes) ==> PlainBlock(b)
  {
    KeysArePlain();
    BoolTextIsOneLine(c.promiscuous);
    BoolTextIsOneLine(c.immediate);
    forall i | 0 <= i < 7 ensures PlainBlock(Layout(c, notes)[i]) {
      AboveIsIgnored(c, notes, i);
      hide IntToString, BoolText, Comment, PlainKey, Ignored;
      KeyAndValue(c, notes, i);
    }
  }

  lemma KeyAndValue(c: Config, notes: seq<string>, i: nat)
    requires |notes| == COMMENTS && WellFormed(c) && i < 7
    ensures PlainKey(Layout(c, notes)[i].key) && OneLine(Layout(c, notes)[i].value)
  {
    KeysArePlain();
    BoolTextIsOneLine(c.promiscuous);
    BoolTextIsOneLine(c.immediate);
    hide IntToString, BoolText, Comment, PlainKey;
  }

  /** The seven items of a written file. */
  lemma LayoutItems(c: Config, notes: seq<string>)
    requires CommentTexts(notes)
    ensures BlockItems(Layout(c, notes)) ==
            map["interval" := IntToString(c.interval), "processCacheSize" := IntToString(c.processCacheSize),
                "interface" := c.interface, "promiscuous" := BoolText(c.promiscuous),
                "immediate" := BoolText(c.immediate), "dbPath" := c.dbPath, "port" := IntToString(c.serverPort)]
  {
    hide IntToString, Comment, BoolText;
    var b := Layout(c, notes);
    OneMoreItem(b, 0);
    OneMoreItem(b, 1);
    OneMoreItem(b, 2);
    OneMoreItem(b, 3);
    OneMoreItem(b, 4);
    OneMoreItem(b, 5);
    OneMoreItem(b, 6);
    hide BlockItems;
    assert b[..7] == b;
  }

  lemma OneMoreItem(b: seq<Block>, k: nat)
    requires k < |b|
    ensures BlockItems(b[..k + 1]) == BlockItems(b[..k])[b[k].key := b[k].value]
    ensures BlockItems(b[..0]) == map[]
  {
    assert b[..k + 1][..k] == b[..k];
  }

  lemma BoolReads(b: bool)
    ensures StringToBool(Lower(BoolText(b))) == Some(b)
  {
    assert Lower("true") == "true" && Lower("false") == "false";
  }

  /** The seven written items convert back to the fields. */
  lemma WrittenItemsConvert(items: Items, c: Config)
    requires WellFormed(c)
    requires items ==
             map["interval" := IntToString(c.interval), "processCacheSize" := IntToString(c.processCacheSize),
                 "interface" := c.interface, "promiscuous" := BoolText(c.promiscuous),
                 "immediate" := BoolText(c.immediate), "dbPath" := c.dbPath, "port" := IntToString(c.serverPort)]
    ensures FromItems(items) == c
  {
    hide IntToString, Stoi, StringToBool, Lower, BoolText, OneLine;
    StoiOfPrinted(c.interval);
    StoiOfPrinted(c.processCacheSize);
    StoiOfPrinted(c.serverPort);
    BoolReads(c.promiscuous);
    BoolReads(c.immediate);
  }

  /** Reading a written file gives the configuration back. */
  lemma ParsePrinted(c: Config, notes: seq<string>)
    requires CommentTexts(notes) && WellFormed(c)
    ensures Parse(Print(c, notes)) == c
  {
    hide IntToString, Layout, BoolText, Split, Terminate, FileLines, ItemsOf, BlockItems, PlainBlock, FromItems,
         WellFormed;
    var blocks := Layout(c, notes);
    LayoutIsPlain(c, notes);
    BlocksRead(blocks);
    LayoutItems(c, notes);
    SplitTerminated(FileLines(blocks), '\n');
    WrittenItemsConvert(BlockItems(blocks), c);
  }

  // ----- what any file means

  lemma TrimKeeps(s: string, c: char)
    requires c in Trim(s)
    ensures c in s
  {
    var before, after := TrimIsSlice(s);
  }

  lemma {:induction false} ItemsAreOneLine(lines: seq<string>, key: string)
    requires (forall l :: l in lines ==> '\n' !in l) && key in ItemsOf(lines)
    ensures OneLine(ItemsOf(lines)[key])
  {
    var init, line := lines[..|lines| - 1], lines[|lines| - 1];
    assert line in lines;
    if key in ItemsOf(init) {
      ItemsAreOneLine(init, key);
    }
    var rest := line[if Find(line, '=') < |line| then Find(line, '=') + 1 else 0..];
    if '\n' in Trim(rest) {
      TrimKeeps(rest, '\n');
    }
  }

  /** Among the lines, the last that gives the key gives it this value. */
  ghost predicate Gives(lines: seq<string>, key: string, value: string) {
    exists i :: 0 <= i < |lines| && IsItem(lines[i], key, value) && NotGiven(lines[i + 1..], key)
  }

  ghost predicate NotGiven(lines: seq<string>, key: string) {
    forall l, v :: l in lines ==> !IsItem(l, key, v)
  }

  lemma NotGivenOneMore(init: seq<string>, line: string, key: string)
    ensures NotGiven(init + [line], key) <==> NotGiven(init, key) && forall v :: !IsItem(line, key, v)
  {
    hide IsItem;
    assert line in init + [line];
    assert forall l :: l in init ==> l in init + [line];
  }

  /** The items of a file are what its last line for each key says. */
  lemma {:induction false} ItemsAreLastGiven(lines: seq<string>, key: string)
    ensures key in ItemsOf(lines) <==> !NotGiven(lines, key)
    ensures key in ItemsOf(lines) ==> Gives(lines, key, ItemsOf(lines)[key])
  {
    hide IsItem, AddLine, NotGiven;
    if lines == [] {
      NothingGiven(key);
    } else {
      var n := |lines| - 1;
      var init, line := lines[..n], lines[n];
      assert lines == init + [line];
      ItemsAreLastGiven(init, key);
      NotGivenOneMore(init, line, key);
      var k, v := EveryLine(ItemsOf(init), line);
      if IsNoItem(line) {
        NoItemGivesNothing(line, key);
      } else {
        ItemReads(ItemsOf(init), line, k, v);
        OnlyOneKey(ItemsOf(init), line, k, v, key);
      }
      if key in ItemsOf(init) && (IsNoItem(line) || k != key) {
        var i :| 0 <= i < n && IsItem(init[i], key, ItemsOf(init)[key]) && NotGiven(init[i + 1..], key);
        NotGivenOneMore(init[i + 1..], line, key);
        assert lines[i + 1..] == init[i + 1..] + [line];
        assert lines[i] == init[i];
      } else if key in ItemsOf(lines) {
        NothingGiven(key);
        assert lines[n + 1..] == [];
      }
    }
  }

  lemma NothingGiven(key: string)
    ensures NotGiven([], key)
  {
  }

  lemma NoItemGivesNothing(line: string, key: string)
    requires IsNoItem(line)
    ensures forall v :: !IsItem(line, key, v)
  {
    forall v | IsItem(line, key, v) ensures false {
      ItemReads(map[], line, key, v);
    }
  }

  /** A line gives one key one value. */
  lemma OnlyOneKey(items: Items, line: string, k: string, v: string, key: string)
    requires IsItem(line, k, v)
    ensures forall u :: IsItem(line, key, u) ==> key == k && u == v
  {
    hide IsItem, AddLine;
    ItemReads(map[], line, k, v);
    forall u | IsItem(line, key, u) ensures key == k && u == v {
      ItemReads(map[], line, key, u);
      assert key in map[key := u];
      assert map[k := v] == map[key := u];
    }
  }

  lemma GivenIsUnique(lines: seq<string>, key: string, value: string)
    requires Gives(lines, key, value)
    ensures key in ItemsOf(lines) && ItemsOf(lines)[key] == value
  {
    hide IsItem, ItemsOf;
    ItemsAreLastGiven(lines, key);
    var i :| 0 <= i < |lines| && IsItem(lines[i], key, value) && NotGiven(lines[i + 1..], key);
    assert lines[i] in lines;
    var found := ItemsOf(lines)[key];
    var j :| 0 <= j < |lines| && IsItem(lines[j], key, found) && NotGiven(lines[j + 1..], key);
    OnlyOneKey(map[], lines[i], key, value, key);
  }

  /** A number in a file: the last one given if it reads as a 32-bit int, otherwise the default. */
  ghost predicate NumberIs(lines: seq<string>, key: string, default: int, n: int) {
    && (NotGiven(lines, key) ==> n == default)
    && forall v :: Gives(lines, key, v) ==> n == match Stoi(v) case Parsed(m) => m case _ => default
  }

  ghost predicate TextIs(lines: seq<string>, key: string, s: string) {
    && (NotGiven(lines, key) ==> s == "")
    && forall v :: Gives(lines, key, v) ==> s == v
  }

  ghost predicate FlagIs(lines: seq<string>, key: string, b: bool) {
    && (NotGiven(lines, key) ==> !b)
    && forall v :: Gives(lines, key, v) ==>
         (b <==> SameButCase(v, "true") || SameButCase(v, "yes") || SameButCase(v, "on") || v == "1")
  }

  lemma NumberRead(lines: seq<string>, key: string, default: int)
    ensures NumberIs(lines, key, default, IntItem(ItemsOf(lines), key, default))
  {
    hide NotGiven, Gives, ItemsOf, Stoi;
    ItemsAreLastGiven(lines, key);
    forall v | Gives(lines, key, v) ensures key in ItemsOf(lines) && ItemsOf(lines)[key] == v {
      GivenIsUnique(lines, key, v);
    }
  }

  lemma TextRead(lines: seq<string>, key: string)
    ensures TextIs(lines, key, StringItem(ItemsOf(lines), key, ""))
  {
    hide NotGiven, Gives, ItemsOf;
    ItemsAreLastGiven(lines, key);
    forall v | Gives(lines, key, v) ensures key in ItemsOf(lines) && ItemsOf(lines)[key] == v {
      GivenIsUnique(lines, key, v);
    }
  }

  lemma FlagRead(lines: seq<string>, key: string)
    ensures FlagIs(lines, key, BoolItem(ItemsOf(lines), key, false))
  {
    hide NotGiven, Gives, ItemsOf, StringToBool, Lower, SameButCase;
    ItemsAreLastGiven(lines, key);
    forall v | Gives(lines, key, v) ensures key in ItemsOf(lines) && ItemsOf(lines)[key] == v {
      GivenIsUnique(lines, key, v);
    }
    if key in ItemsOf(lines) {
      FlagWords(ItemsOf(lines)[key]);
    }
  }

  /** What any file means, field by field: the last line that gives it, else its default. */
  lemma ParsedFields(text: string)
    ensures var lines, c := Split(text, '\n'), Parse(text);
            && NumberIs(lines, "interval", 10, c.interval)
            && TextIs(lines, "interface", c.interface)
            && FlagIs(lines, "promiscuous", c.promiscuous)
            && FlagIs(lines, "immediate", c.immediate)
            && TextIs(lines, "dbPath", c.dbPath)
            && NumberIs(lines, "processCacheSize", 5, c.processCacheSize)
            && exists port :: NumberIs(lines, "port", 13889, port) && c.serverPort == port % 0x1_0000
  {
    var lines := Split(text, '\n');
    NumberRead(lines, "interval", 10);
    NumberRead(lines, "processCacheSize", 5);
    NumberRead(lines, "port", 13889);
    TextRead(lines, "interface");
    TextRead(lines, "dbPath");
    FlagRead(lines, "promiscuous");
    FlagRead(lines, "immediate");
    hide NumberIs, TextIs, FlagIs, IntItem, StringItem, BoolItem, ItemsOf, Split;
    assert Parse(text) == FromItems(ItemsOf(lines));
  }

  /** Every file means a configuration the format can carry. */
  lemma ParsedIsWellFormed(text: string)
    ensures WellFormed(Parse(text))
  {
    var lines := Split(text, '\n');
    FieldsFree(text, '\n');
    var items := ItemsOf(lines);
    if "interface" in items {
      ItemsAreOneLine(lines, "interface");
    }
    if "dbPath" in items {
      ItemsAreOneLine(lines, "dbPath");
    }
    StoiInRange(items, "interval", DEFAULTS.interval);
    StoiInRange(items, "processCacheSize", DEFAULTS.processCacheSize);
  }

  lemma {:induction false} StoiRange(s: string)
    ensures Stoi(s).Parsed? ==> -TWO_TO_THE_31 <= Stoi(s).n < TWO_TO_THE_31
  {
    if s != "" && IsSpace(s[0]) {
      StoiRange(s[1..]);
    }
  }

  lemma StoiInRange(items: Items, key: string, default: int)
    requires -TWO_TO_THE_31 <= default < TWO_TO_THE_31
    ensures -TWO_TO_THE_31 <= IntItem(items, key, default) < TWO_TO_THE_31
  {
    if key in items {
      StoiRange(items[key]);
    }
  }

  /** Writing and reading back preserves a configuration exactly when its strings are trimmed,
      single-line, and its numbers are in range. */
  lemma RoundTripIff(c: Config, notes: seq<string>)
    requires CommentTexts(notes)
    ensures Parse(Print(c, notes)) == c <==> WellFormed(c)
  {
    ParsedIsWellFormed(Print(c, notes));
    if WellFormed(c) {
      ParsePrinted(c, notes);
    }
  }

  /** Rewriting a file keeps its meaning, and rewriting it again changes nothing. */
  lemma RewritingNormalises(text: string, notes: seq<string>)
    requires CommentTexts(notes)
    ensures var rewritten := Print(Parse(text), notes);
            Parse(rewritten) == Parse(text) && Print(Parse(rewritten), notes) == rewritten
  {
    ParsedIsWellFormed(text);
    ParsePrinted(Parse(text), notes);
  }

  // ----- the class

  /** The command-line values that override the file. */
  datatype Args = Args(interval: Option<int>, interface: Option<string>, dbPath: Option<string>,
                       serverPort: Option<int>)

  class ConfigFile {
    var interval: int
    var interface: string
    var promiscuous: bool
    var immediate: bool
    var dbPath: string
    var processCacheSize: int
    var serverPort: int
    /** The contents of the file at mFilePath, None while it does not exist. */
    var file: Option<string>

    function Data(): Config
      reads this
    {
      Config(interval, interface, promiscuous, immediate, dbPath, processCacheSize, serverPort)
    }

    constructor (found: Option<string>, notes: seq<string>)
      requires |notes| == COMMENTS
      ensures Data() == if found.Some? then Parse(found.value) else DEFAULTS
      ensures file == Some(Print(Data(), notes))
    {
      interval, interface, promiscuous, immediate := 10, "", false, false;
      dbPath, processCacheSize, serverPort := "", 5, 13889;
      file := found;
      new;
      if found.Some? {
        var items := ReadItems(found.value);
        Assign(items);
      }
      WriteConfig(notes);
    }

    method ReadItems(text: string) returns (items: Items)
      ensures items == ItemsOf(Split(text, '\n'))
      ensures forall key :: key in items <==> !NotGiven(Split(text, '\n'), key)
      ensures forall key :: key in items ==> Gives(Split(text, '\n'), key, items[key])
    {
      items := map[];
      var lines := SplitScan(text, '\n');
      for k := 0 to |lines|
        invariant items == ItemsOf(lines[..k])
      {
        assert lines[..k + 1][..k] == lines[..k];
        var line := lines[k];
        if line == "" || line[0] == '#' || line[0] == '[' {
          continue;
        }
        var delimPos := Find(line, '=');
        if delimPos != |line| {
          var key := TrimScan(line[..delimPos]);
          var value := TrimScan(line[delimPos + 1..]);
          items := items[key := value];
        }
      }
      assert lines[..|lines|] == lines;
      hide NotGiven, Gives, ItemsOf;
      forall key ensures (key in items <==> !NotGiven(lines, key)) && (key in items ==> Gives(lines, key, items[key])) {
        ItemsAreLastGiven(lines, key);
      }
    }

    /** The fields found in the file; a value that does not convert leaves its field. */
    method Assign(items: Items)
      requires Data() == DEFAULTS
      modifies this
      ensures Data() == FromItems(items) && file == old(file)
    {
      AssignStrings(items);
      AssignFlags(items);
      AssignNumbers(items);
    }

    method AssignStrings(items: Items)
      modifies this`interface, this`dbPath
      ensures interface == StringItem(items, "interface", old(interface))
      ensures dbPath == StringItem(items, "dbPath", old(dbPath))
    {
      if "interface" in items {
        interface := items["interface"];
      }
      if "dbPath" in items {
        dbPath := items["dbPath"];
      }
    }

    method AssignFlags(items: Items)
      modifies this`promiscuous, this`immediate
      ensures promiscuous == BoolItem(items, "promiscuous", old(promiscuous))
      ensures immediate == BoolItem(items, "immediate", old(immediate))
    {
      hide StringToBool, Lower;
      if "promiscuous" in items {
        var b := ReadFlag(items["promiscuous"]);
        if b.Some? { promiscuous := b.value; }
      }
      if "immediate" in items {
        var b := ReadFlag(items["immediate"]);
        if b.Some? { immediate := b.value; }
      }
    }

    /** A flag's value, lowered in a buffer of its own. */
    method ReadFlag(value: string) returns (b: Option<bool>)
      ensures b == StringToBool(Lower(value))
    {
      var val := new char[|value|](i requires 0 <= i < |value| => value[i]);
      assert val[..] == value;
      LowerInPlace(val);
      b := StringToBool(val[..]);
    }

    /** The port is stored in 16 bits. */
    method AssignNumbers(items: Items)
      requires 0 <= serverPort < TWO_TO_THE_16
      modifies this`interval, this`serverPort, this`processCacheSize
      ensures interval == IntItem(items, "interval", old(interval))
      ensures serverPort == IntItem(items, "port", old(serverPort)) % TWO_TO_THE_16
      ensures processCacheSize == IntItem(items, "processCacheSize", old(processCacheSize))
    {
      hide Stoi;
      if "interval" in items {
        var n := Stoi(items["interval"]);
        if n.Parsed? { interval := n.n; }
      }
      if "port" in items {
        var n := Stoi(items["port"]);
        if n.Parsed? { serverPort := n.n % TWO_TO_THE_16; }
      }
      if "processCacheSize" in items {
        var n := Stoi(items["processCacheSize"]);
        if n.Parsed? { processCacheSize := n.n; }
      }
    }

    /** Arguments given on the command line win; the file is not touched. */
    method MergeArgs(args: Args)
      modifies this
      ensures Data() == old(Data()).(interval := if args.interval.Some? then args.interval.value else old(interval),
                                     interface := if args.interface.Some? then args.interface.value else old(interface),
                                     dbPath := if args.dbPath.Some? then args.dbPath.value else old(dbPath),
                                     serverPort := if args.serverPort.Some? then args.serverPort.value
                                                   else old(serverPort))
      ensures file == old(file)
    {
      if args.interval.Some? { interval := args.interval.value; }
      if args.interface.Some? { interface := args.interface.value; }
      if args.dbPath.Some? { dbPath := args.dbPath.value; }
      if args.serverPort.Some? { serverPort := args.serverPort.value; }
    }

    method WriteConfig(notes: seq<string>)
      requires |notes| == COMMENTS
      modifies this`file
      ensures file == Some(Print(Data(), notes))
    {
      var blocks := Layout(Data(), notes);
      var cfg: string := "";
      for i := 0 to |blocks|
        invariant cfg == Terminate(FileLines(blocks[..i]), '\n')
      {
        assert blocks[..i + 1][..i] == blocks[..i];
        cfg := Append(cfg, FileLines(blocks[..i]), BlockLines(blocks[i]));
      }
      assert blocks[..|blocks|] == blocks;
      file := Some(cfg);
    }

    /** The stream with more lines. */
    method Append(cfg: string, ghost before: seq<string>, lines: seq<string>) returns (cfg': string)
      requires cfg == Terminate(before, '\n')
      ensures cfg' == Terminate(before + lines, '\n')
    {
      cfg' := cfg;
      assert before + lines[..0] == before;
      for i := 0 to |lines|
        invariant cfg' == Terminate(before + lines[..i], '\n')
      {
        var more := before + lines[..i + 1];
        assert more[..|more| - 1] == before + lines[..i];
        cfg' := cfg' + lines[i] + "\n";
      }
      assert lines[..|lines|] == lines;
    }
  }
}
