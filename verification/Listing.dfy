/** Listing a bucket: reading one page, and following the pages to the end. `src/objects.rs`. */
module Listing {
  import opened Prelude
  import opened Numerals
  import opened XmlText

  const U64_LIMIT: nat := 0x1_0000_0000_0000_0000

  datatype Entry = Entry(key: string, size: nat, modified: int)

  /** The reading and writing of time stamps, which this does not look into. */
  datatype Stamps = Stamps(parse: string -> Option<int>, render: int -> string)

  /** Unicode's White_Space, which is what `str::trim` takes off. */
  predicate IsSpace(c: char)
  {
    || '\t' <= c <= '\r' || c in " \U{85}\U{A0}\U{1680}" || '\U{2000}' <= c <= '\U{200A}'
    || c in "\U{2028}\U{2029}\U{202F}\U{205F}\U{3000}"
  }

  function Trim(text: string): string
  {
    if text == [] then []
    else if IsSpace(text[0]) then Trim(text[1..])
    else if IsSpace(text[|text| - 1]) then Trim(text[..|text| - 1])
    else text
  }

  /** The character is white space, by its code point. */
  predicate IsWhite(c: char)
  {
    c as int in {9, 10, 11, 12, 13, 32, 133, 160, 5760, 8192, 8193, 8194, 8195, 8196, 8197, 8198, 8199, 8200, 8201, 8202,
                 8232, 8233, 8239, 8287, 12288}
  }

  lemma SpaceIff(c: char)
    ensures IsSpace(c) <==> IsWhite(c)
  {
  }

  ghost predicate Blank(text: string)
  {
    forall i :: 0 <= i < |text| ==> IsWhite(text[i])
  }

  lemma TrimStep(text: string)
    requires text != []
    ensures Trim(text) == if IsWhite(text[0]) then Trim(text[1..])
                          else if IsWhite(text[|text| - 1]) then Trim(text[..|text| - 1]) else text
  {
    hide IsSpace, IsWhite;
    SpaceIff(text[0]);
    SpaceIff(text[|text| - 1]);
  }

  /** Trimming leaves a stretch of a text with nothing but white space on either side of it and none at its ends. */
  ghost predicate IsTrimmed(text: string, lo: nat, hi: nat)
  {
    && lo <= hi <= |text|
    && (forall i :: 0 <= i < |text| && !(lo <= i < hi) ==> IsWhite(text[i]))
    && (lo < hi ==> !IsWhite(text[lo]) && !IsWhite(text[hi - 1]))
  }

  lemma TrimmedMore(text: string, lo: nat, hi: nat)
    requires text != []
    ensures IsWhite(text[0]) && IsTrimmed(text[1..], lo, hi) ==>
              IsTrimmed(text, lo + 1, hi + 1) && text[1..][lo..hi] == text[lo + 1..hi + 1]
    ensures IsWhite(text[|text| - 1]) && IsTrimmed(text[..|text| - 1], lo, hi) ==>
              IsTrimmed(text, lo, hi) && text[..|text| - 1][lo..hi] == text[lo..hi]
  {
    hide IsWhite;
    assert forall i :: 0 < i < |text| ==> text[i] == text[1..][i - 1];
  }

  lemma {:induction false} TrimIs(text: string) returns (lo: nat, hi: nat)
    ensures IsTrimmed(text, lo, hi) && Trim(text) == text[lo..hi]
  {
    hide Trim, IsWhite, IsTrimmed;
    if text == [] {
      NothingTrimmed();
      return 0, 0;
    }
    TrimStep(text);
    if IsWhite(text[0]) {
      lo, hi := TrimIs(text[1..]);
      TrimmedMore(text, lo, hi);
      return lo + 1, hi + 1;
    } else if IsWhite(text[|text| - 1]) {
      lo, hi := TrimIs(text[..|text| - 1]);
      TrimmedMore(text, lo, hi);
    } else {
      AllTrimmed(text);
      return 0, |text|;
    }
  }

  lemma NothingTrimmed()
    ensures IsTrimmed([], 0, 0) && Trim([]) == [][0..0]
  {
  }

  lemma AllTrimmed(text: string)
    requires text != [] && !IsWhite(text[0]) && !IsWhite(text[|text| - 1])
    ensures IsTrimmed(text, 0, |text|) && text[0..|text|] == text
  {
  }

  function Lower(c: char): char
  {
    if 'A' <= c <= 'Z' then c + ('a' - 'A') else c
  }

  predicate EqIgnoreCase(a: string, b: string)
  {
    |a| == |b| && forall i :: 0 <= i < |a| ==> Lower(a[i]) == Lower(b[i])
  }

  // --------------------------------------------------------------------------------------------------------- one page

  /** One entry, or none where an element is missing or will not read. */
  function ParseBlock(block: string, stamps: Stamps): Option<Entry>
  {
    match Element(block, "Key")
    case None => None
    case Some(raw) =>
      match (Unescaped(raw), Element(block, "Size"), Element(block, "LastModified"))
      case (Some(key), Some(size), Some(stamp)) =>
        (match (ParseUnsigned(Trim(size), U64_LIMIT), stamps.parse(Trim(stamp)))
         case (Some(size), Some(modified)) => Some(Entry(key, size, modified))
         case _ => None)
      case _ => None
  }

  /** The entries of the blocks, or none where one of them will not read. */
  function ParseBlocks(blocks: seq<string>, stamps: Stamps): Option<seq<Entry>>
  {
    if blocks == [] then Some([])
    else
      var n := |blocks| - 1;
      match (ParseBlocks(blocks[..n], stamps), ParseBlock(Split(blocks[n], "</Contents>")[0], stamps))
      case (Some(entries), Some(entry)) => Some(entries + [entry])
      case _ => None
  }

  datatype Page = Page(entries: seq<Entry>, next: Option<string>)

  function ParsePage(xml: string, stamps: Stamps): Option<Page>
  {
    match ParseBlocks(Split(xml, "<Contents>")[1..], stamps)
    case None => None
    case Some(entries) =>
      var flag := Element(xml, "IsTruncated");
      if flag.None? || !EqIgnoreCase(Trim(flag.value), "true") then Some(Page(entries, None))
      else
        match Element(xml, "NextContinuationToken")
        case None => None
        case Some(raw) =>
          match Unescaped(raw)
          case None => None
          case Some(next) => Some(Page(entries, Some(next)))
  }

  lemma {:induction false} BadBlockSpoilsAll(blocks: seq<string>, stamps: Stamps, i: nat)
    requires i < |blocks| && ParseBlock(Split(blocks[i], "</Contents>")[0], stamps).None?
    ensures ParseBlocks(blocks, stamps).None?
  {
    if i < |blocks| - 1 {
      BadBlockSpoilsAll(blocks[..|blocks| - 1], stamps, i);
    }
  }

  /** Reads a page block by block and gives up at the first that will not read. */
  method ParseListPage(xml: string, stamps: Stamps) returns (page: Option<Page>)
    ensures page == ParsePage(xml, stamps)
  {
    hide Split, Element, Unescaped, Trim, ParseBlock, EqIgnoreCase;
    var blocks, entries := Split(xml, "<Contents>")[1..], [];
    for i := 0 to |blocks|
      invariant ParseBlocks(blocks[..i], stamps) == Some(entries)
    {
      var entry := ParseBlock(Split(blocks[i], "</Contents>")[0], stamps);
      if entry.None? {
        BadBlockSpoilsAll(blocks, stamps, i);
        return None;
      }
      assert blocks[..i + 1][..i] == blocks[..i];
      entries := entries + [entry.value];
    }
    assert blocks[..|blocks|] == blocks;
    var flag := Element(xml, "IsTruncated");
    if flag.None? || !EqIgnoreCase(Trim(flag.value), "true") {
      return Some(Page(entries, None));
    }
    var raw := Element(xml, "NextContinuationToken");
    if raw.None? {
      return None;
    }
    var next := Unescape(raw.value);
    if next.None? {
      return None;
    }
    return Some(Page(entries, next));
  }

  /** The text is `true`, in any case and with white space around it. */
  predicate SaysTrue(text: string)
  {
    var word := Trim(text);
    |word| == 4 && word[0] in "tT" && word[1] in "rR" && word[2] in "uU" && word[3] in "eE"
  }

  lemma SaysTrueIff(text: string)
    ensures EqIgnoreCase(Trim(text), "true") <==> SaysTrue(text)
  {
    hide Trim;
    var word := Trim(text);
    if |word| == 4 {
      assert EqIgnoreCase(word, "true") <==>
          Lower(word[0]) == 't' && Lower(word[1]) == 'r' && Lower(word[2]) == 'u' && Lower(word[3]) == 'e';
    }
  }

  /** The block has an element for each part of the entry: its key, escaped, its size, in 64 bits, and its time. */
  ghost predicate IsEntry(block: string, stamps: Stamps, entry: Entry)
  {
    exists key, size, stamp ::
      && Element(block, "Key") == Some(key) && Unescaped(key) == Some(entry.key)
      && Element(block, "Size") == Some(size) && Denotes(Trim(size), entry.size)
      && entry.size < 18_446_744_073_709_551_616
      && Element(block, "LastModified") == Some(stamp) && stamps.parse(Trim(stamp)) == Some(entry.modified)
  }

  lemma BlockIff(block: string, stamps: Stamps, entry: Entry)
    ensures ParseBlock(block, stamps) == Some(entry) <==> IsEntry(block, stamps, entry)
  {
    hide Element, Unescaped, Trim, Denotes, ParseUnsigned;
    var size := Element(block, "Size");
    if size.Some? {
      forall n: nat
        ensures ParseUnsigned(Trim(size.value), U64_LIMIT) == Some(n) <==> n < U64_LIMIT && Denotes(Trim(size.value), n)
      {
        ParsesIff(Trim(size.value), U64_LIMIT, n);
      }
    }
  }

  /** Each block between one `<Contents>` and the next has, up to the end of the element, its entry. */
  ghost predicate AreEntries(blocks: seq<string>, stamps: Stamps, entries: seq<Entry>)
  {
    && |blocks| == |entries|
    && forall i :: 0 <= i < |blocks| ==> IsEntry(Split(blocks[i], "</Contents>")[0], stamps, entries[i])
  }

  lemma {:induction false} BlocksIff(blocks: seq<string>, stamps: Stamps, entries: seq<Entry>)
    ensures ParseBlocks(blocks, stamps) == Some(entries) <==> AreEntries(blocks, stamps, entries)
  {
    hide IsEntry, ParseBlock, Split;
    if blocks != [] && entries != [] {
      var n, m := |blocks| - 1, |entries| - 1;
      BlocksIff(blocks[..n], stamps, entries[..m]);
      BlockIff(Split(blocks[n], "</Contents>")[0], stamps, entries[m]);
      assert entries == entries[..m] + [entries[m]];
    }
  }

  /** A text reads as a page exactly when every block of it has its entry and, where it says that the listing goes on,
      the token to go on with reads as well. */
  lemma PageIff(xml: string, stamps: Stamps, page: Page)
    ensures ParsePage(xml, stamps) == Some(page) <==>
              && AreEntries(Split(xml, "<Contents>")[1..], stamps, page.entries)
              && if exists flag :: Element(xml, "IsTruncated") == Some(flag) && SaysTrue(flag) then
                   && page.next.Some?
                   && exists raw :: Element(xml, "NextContinuationToken") == Some(raw) && Unescaped(raw) == page.next
                 else page.next.None?
  {
    hide Split, Element, Unescaped, Trim, ParseBlocks, EqIgnoreCase, AreEntries, SaysTrue;
    BlocksIff(Split(xml, "<Contents>")[1..], stamps, page.entries);
    var flag := Element(xml, "IsTruncated");
    if flag.Some? {
      SaysTrueIff(flag.value);
    }
  }

  // ------------------------------------------------------------------------------------------------ how it is written

  /** What a server is free in: what it puts around and between the elements, and how much of a key it escapes. */
  datatype Layout = Layout(prologue: seq<Token>, gap: seq<Token>, epilogue: seq<Token>, also: char -> bool)

  const NAMES: set<string> := {"Contents", "/Contents", "Key", "Size", "LastModified", "IsTruncated",
                               "NextContinuationToken"}

  predicate Foreign(tokens: seq<Token>)
  {
    AllTidy(tokens) && forall i :: 0 <= i < |tokens| ==> tokens[i].Text? || tokens[i].name !in NAMES
  }

  predicate Plain(layout: Layout)
  {
    Foreign(layout.prologue) && Foreign(layout.gap) && Foreign(layout.epilogue)
  }

  ghost predicate Lawful(stamps: Stamps)
  {
    forall t :: stamps.parse(Trim(stamps.render(t))) == Some(t) && '<' !in stamps.render(t)
  }

  /** One element and the gap after it. */
  function Field(layout: Layout, name: string, text: string): seq<Token>
  {
    [Tag(name), Text(text), Tag("/" + name)] + layout.gap
  }

  function Body(layout: Layout, stamps: Stamps, entry: Entry): seq<Token>
  {
    layout.gap + (Field(layout, "Key", Escaped(entry.key, layout.also))
    + (Field(layout, "LastModified", stamps.render(entry.modified)) + Field(layout, "Size", Decimal(entry.size))))
  }

  function Blocks(layout: Layout, stamps: Stamps, entries: seq<Entry>): seq<Token>
  {
    if entries == [] then layout.epilogue
    else [Tag("Contents")] + (Body(layout, stamps, entries[0]) + [Tag("/Contents")] + layout.gap
                              + Blocks(layout, stamps, entries[1..]))
  }

  /** Whether there is more, and where it goes on. */
  function Truncation(layout: Layout, next: Option<string>): seq<Token>
  {
    Field(layout, "IsTruncated", if next.Some? then "true" else "false")
  }

  function Continuation(layout: Layout, next: Option<string>): seq<Token>
  {
    if next.Some? then Field(layout, "NextContinuationToken", Escaped(next.value, layout.also)) else []
  }

  function RenderPage(layout: Layout, stamps: Stamps, page: Page): string
  {
    Render(layout.prologue + (Truncation(layout, page.next)
                              + (Continuation(layout, page.next) + Blocks(layout, stamps, page.entries))))
  }

  // ------------------------------------------------------------------------------------- reading what was written

  lemma TrimPlain(text: string)
    requires text != [] && !IsSpace(text[0]) && !IsSpace(text[|text| - 1])
    ensures Trim(text) == text
  {
  }

  lemma TrimDecimal(n: nat)
    ensures Trim(Decimal(n)) == Decimal(n)
  {
    hide Decimal;
    assert !IsSpace(Decimal(n)[0]) && !IsSpace(Decimal(n)[|Decimal(n)| - 1]);
    TrimPlain(Decimal(n));
  }

  /** A tag that scanning looks for is not hidden in a gap. */
  lemma NotInForeign(tokens: seq<Token>, name: string)
    requires Foreign(tokens) && name in NAMES
    ensures Tag(name) !in tokens
  {
  }

  lemma FieldTidy(layout: Layout, name: string, text: string)
    requires AllTidy(layout.gap) && Tidy(Tag(name)) && '<' !in text
    ensures AllTidy(Field(layout, name, text))
  {
    var field := Field(layout, name, text);
    forall i | 0 <= i < |field|
      ensures Tidy(field[i])
    {
      if i >= 3 {
        assert field[i] == layout.gap[i - 3];
      }
    }
  }

  lemma FieldLacks(layout: Layout, name: string, text: string, other: string)
    requires Tag(other) !in layout.gap && other != name && (other == [] || other[0] != '/' || other[1..] != name)
    ensures Tag(other) !in Field(layout, name, text)
  {
    assert ("/" + name)[0] == '/' && ("/" + name)[1..] == name;
  }

  /** The scanner reads a field back wherever it stands, if it is the first of its name. */
  lemma FieldReads(before: seq<Token>, layout: Layout, name: string, text: string, after: seq<Token>)
    requires AllTidy(before) && AllTidy(after) && Foreign(layout.gap) && Tidy(Tag(name)) && '<' !in text
    requires Tag(name) !in before
    ensures Element(Render(before + (Field(layout, name, text) + after)), name) == Some(text)
  {
    hide Element, Render;
    var gap := layout.gap;
    assert before + (Field(layout, name, text) + after)
        == before + [Tag(name), Text(text), Tag("/" + name)] + (gap + after);
    assert AllTidy(gap + after);
    ElementIn(before, name, text, gap + after);
  }

  /** Three fields read back one after another, whatever their names, if none holds the tag of a later one. */
  lemma FieldsRead(layout: Layout, n1: string, t1: string, n2: string, t2: string, n3: string, t3: string)
    requires Foreign(layout.gap) && '<' !in t1 && '<' !in t2 && '<' !in t3
    requires Tidy(Tag(n1)) && Tidy(Tag(n2)) && Tidy(Tag(n3))
    requires Tag(n1) !in layout.gap && Tag(n2) !in layout.gap && Tag(n3) !in layout.gap
    requires Tag(n2) !in Field(layout, n1, t1) && Tag(n3) !in Field(layout, n1, t1) && Tag(n3) !in Field(layout, n2, t2)
    ensures var text := Render(layout.gap + (Field(layout, n1, t1) + (Field(layout, n2, t2) + Field(layout, n3, t3))));
            Element(text, n1) == Some(t1) && Element(text, n2) == Some(t2) && Element(text, n3) == Some(t3)
  {
    hide Element, Render;
    FieldTidy(layout, n1, t1);
    FieldTidy(layout, n2, t2);
    FieldTidy(layout, n3, t3);
    var f1, f2, f3 := Field(layout, n1, t1), Field(layout, n2, t2), Field(layout, n3, t3);
    hide Field;
    OneWay(layout.gap, f1, f2, f3);
    FieldReads(layout.gap, layout, n1, t1, f2 + f3);
    FieldReads(layout.gap + f1, layout, n2, t2, f3);
    FieldReads(layout.gap + f1 + f2, layout, n3, t3, []);
  }

  lemma OneWay(gap: seq<Token>, f1: seq<Token>, f2: seq<Token>, f3: seq<Token>)
    ensures gap + (f1 + (f2 + f3)) == gap + f1 + (f2 + f3) == gap + f1 + f2 + (f3 + [])
  {
  }

  lemma EntryNames()
    ensures Tidy(Tag("Key")) && Tidy(Tag("LastModified")) && Tidy(Tag("Size"))
    ensures "Key" != "LastModified" && "Key" != "Size" && "LastModified" != "Size"
    ensures "LastModified"[0] != '/' && "Size"[0] != '/'
  {
    assert |"Key"| < |"Size"| < |"LastModified"|;
  }

  /** One block reads back as its entry. */
  lemma BodyReads(layout: Layout, stamps: Stamps, entry: Entry)
    requires Plain(layout) && Lawful(stamps) && entry.size < U64_LIMIT
    ensures ParseBlock(Render(Body(layout, stamps, entry)), stamps) == Some(entry)
  {
    var key, stamp, size := Escaped(entry.key, layout.also), stamps.render(entry.modified), Decimal(entry.size);
    hide Decimal, Escaped, Element, Render, Unescaped, Trim, ParseUnsigned, Field, Tidy;
    EntryNames();
    EscapedIsPlain(entry.key, layout.also);
    OnlyDigits(entry.size, '<');
    UnescapeEscaped(entry.key, layout.also);
    DecimalParses(entry.size, U64_LIMIT);
    TrimDecimal(entry.size);
    NotInForeign(layout.gap, "Key");
    NotInForeign(layout.gap, "LastModified");
    NotInForeign(layout.gap, "Size");
    hide Foreign, NAMES;
    FieldLacks(layout, "Key", key, "LastModified");
    FieldLacks(layout, "Key", key, "Size");
    FieldLacks(layout, "LastModified", stamp, "Size");
    FieldsRead(layout, "Key", key, "LastModified", stamp, "Size", size);
  }

  /** A block holds neither the tag that opens it nor the one that closes it. */
  lemma BodyTidy(layout: Layout, stamps: Stamps, entry: Entry)
    requires Plain(layout) && Lawful(stamps)
    ensures AllTidy(Body(layout, stamps, entry))
    ensures Tag("Contents") !in Body(layout, stamps, entry) && Tag("/Contents") !in Body(layout, stamps, entry)
  {
    var key, stamp, size := Escaped(entry.key, layout.also), stamps.render(entry.modified), Decimal(entry.size);
    hide Decimal, Escaped, Field;
    EscapedIsPlain(entry.key, layout.also);
    OnlyDigits(entry.size, '<');
    NotInForeign(layout.gap, "Contents");
    NotInForeign(layout.gap, "/Contents");
    hide NAMES;
    FieldTidy(layout, "Key", key);
    FieldTidy(layout, "LastModified", stamp);
    FieldTidy(layout, "Size", size);
    FieldLacks(layout, "Key", key, "Contents");
    FieldLacks(layout, "LastModified", stamp, "Contents");
    FieldLacks(layout, "Size", size, "Contents");
    FieldLacks(layout, "Key", key, "/Contents");
    FieldLacks(layout, "LastModified", stamp, "/Contents");
    FieldLacks(layout, "Size", size, "/Contents");
  }

  /** What stands between the tag that opens one block and the one that opens the next. */
  function Block(layout: Layout, stamps: Stamps, entry: Entry): seq<Token>
  {
    Body(layout, stamps, entry) + [Tag("/Contents")] + layout.gap
  }

  lemma BlockReads(layout: Layout, stamps: Stamps, entry: Entry, after: seq<Token>)
    requires Plain(layout) && Lawful(stamps) && entry.size < U64_LIMIT && AllTidy(after)
    ensures ParseBlock(Split(Render(Block(layout, stamps, entry) + after), "</Contents>")[0], stamps) == Some(entry)
  {
    hide Body, Angle, Split, Render, ParseBlock, Lawful, AllTidy, Tidy, Foreign;
    BodyReads(layout, stamps, entry);
    BodyTidy(layout, stamps, entry);
    BlockTags();
    GapTidy(layout);
    TidyConcat(layout.gap, after);
    var body := Body(layout, stamps, entry);
    assert Block(layout, stamps, entry) + after == body + [Tag("/Contents")] + (layout.gap + after);
    SplitAt(body, "/Contents", layout.gap + after);
  }

  lemma BlockTags()
    ensures Tidy(Tag("Contents")) && Angle("Contents") == "<Contents>"
    ensures Tidy(Tag("/Contents")) && Angle("/Contents") == "</Contents>"
  {
  }

  lemma GapTidy(layout: Layout)
    requires Plain(layout)
    ensures AllTidy(layout.gap) && AllTidy(layout.epilogue) && AllTidy(layout.prologue)
  {
  }

  lemma TidyConcat(a: seq<Token>, b: seq<Token>)
    requires AllTidy(a) && AllTidy(b)
    ensures AllTidy(a + b)
  {
  }

  lemma BlockTidy(layout: Layout, stamps: Stamps, entry: Entry)
    requires Plain(layout) && Lawful(stamps)
    ensures AllTidy(Block(layout, stamps, entry)) && Tag("Contents") !in Block(layout, stamps, entry)
  {
    BodyTidy(layout, stamps, entry);
    NotInForeign(layout.gap, "Contents");
    hide Body, NAMES;
    assert Tidy(Tag("/Contents")) && Tag("/Contents") != Tag("Contents");
  }

  lemma {:induction false} BlocksTidy(layout: Layout, stamps: Stamps, entries: seq<Entry>)
    requires Plain(layout) && Lawful(stamps)
    ensures AllTidy(Blocks(layout, stamps, entries))
  {
    if entries != [] {
      BlocksTidy(layout, stamps, entries[1..]);
      BlockTidy(layout, stamps, entries[0]);
      hide Block, Body, Foreign;
      BlocksStep(layout, stamps, entries);
      hide Blocks;
      assert Tidy(Tag("Contents"));
    }
  }

  lemma BlocksStep(layout: Layout, stamps: Stamps, entries: seq<Entry>)
    requires entries != []
    ensures Blocks(layout, stamps, entries)
         == [Tag("Contents")] + (Block(layout, stamps, entries[0]) + Blocks(layout, stamps, entries[1..]))
  {
    hide Body;
  }

  ghost predicate PartsRead(parts: seq<string>, stamps: Stamps, entries: seq<Entry>)
  {
    |parts| == |entries|
    && forall i :: 0 <= i < |parts| ==> ParseBlock(Split(parts[i], "</Contents>")[0], stamps) == Some(entries[i])
  }

  /** The document splits into what comes before the first block, and one part for each entry. */
  lemma {:induction false} BlocksSplit(before: seq<Token>, layout: Layout, stamps: Stamps, entries: seq<Entry>)
    requires Plain(layout) && Lawful(stamps) && forall i :: 0 <= i < |entries| ==> entries[i].size < U64_LIMIT
    requires AllTidy(before) && Tag("Contents") !in before
    ensures var parts := Split(Render(before + Blocks(layout, stamps, entries)), "<Contents>");
            && parts[0] == Render(before + if entries == [] then layout.epilogue else [])
            && PartsRead(parts[1..], stamps, entries)
    decreases |entries|
  {
    hide Block, Blocks, Split, Render, ParseBlock, AllTidy, Foreign, Angle, Lawful, Tidy;
    BlockTags();
    GapTidy(layout);
    if entries == [] {
      NotInForeign(layout.epilogue, "Contents");
      TidyConcat(before, layout.epilogue);
      NoBlocks(layout, stamps);
      SplitNowhere(before + layout.epilogue, "Contents");
    } else {
      BlockTidy(layout, stamps, entries[0]);
      BlocksTidy(layout, stamps, entries[1..]);
      BlocksStep(layout, stamps, entries);
      BlocksSplit(Block(layout, stamps, entries[0]), layout, stamps, entries[1..]);
      NoBlocks(layout, stamps);
      BlockReads(layout, stamps, entries[0], if entries[1..] == [] then layout.epilogue else []);
      var block, rest := Block(layout, stamps, entries[0]), Blocks(layout, stamps, entries[1..]);
      TidyConcat(block, rest);
      assert before + ([Tag("Contents")] + (block + rest)) == before + [Tag("Contents")] + (block + rest);
      assert before + [] == before;
      SplitAt(before, "Contents", block + rest);
    }
  }

  lemma NoBlocks(layout: Layout, stamps: Stamps)
    ensures Blocks(layout, stamps, []) == layout.epilogue && AllTidy([])
  {
  }

  lemma {:induction false} PartsParse(parts: seq<string>, stamps: Stamps, entries: seq<Entry>)
    requires PartsRead(parts, stamps, entries)
    ensures ParseBlocks(parts, stamps) == Some(entries)
  {
    hide ParseBlock, Split;
    if parts != [] {
      var n := |parts| - 1;
      PartsParse(parts[..n], stamps, entries[..n]);
      assert entries == entries[..n] + [entries[n]];
    }
  }

  lemma PrologueLacks(layout: Layout)
    requires Plain(layout)
    ensures Tag("Contents") !in layout.prologue && Tag("IsTruncated") !in layout.prologue
    ensures Tag("NextContinuationToken") !in layout.prologue
  {
    NotInForeign(layout.prologue, "Contents");
    NotInForeign(layout.prologue, "IsTruncated");
    NotInForeign(layout.prologue, "NextContinuationToken");
  }

  lemma TruncationTidy(layout: Layout, next: Option<string>)
    requires Plain(layout)
    ensures AllTidy(Truncation(layout, next)) && Tag("Contents") !in Truncation(layout, next)
    ensures Tag("NextContinuationToken") !in Truncation(layout, next)
  {
    NotInForeign(layout.gap, "Contents");
    NotInForeign(layout.gap, "NextContinuationToken");
    hide Field, NAMES;
    var flag := if next.Some? then "true" else "false";
    FieldTidy(layout, "IsTruncated", flag);
    FieldLacks(layout, "IsTruncated", flag, "Contents");
    FieldLacks(layout, "IsTruncated", flag, "NextContinuationToken");
  }

  lemma NamesDiffer()
    ensures "Contents" != "NextContinuationToken" && "Contents"[0] != '/'
  {
    assert |"Contents"| != |"NextContinuationToken"|;
  }

  lemma ContinuationIsTidy()
    ensures Tidy(Tag("NextContinuationToken"))
  {
  }

  lemma ContinuationTidy(layout: Layout, next: Option<string>)
    requires Plain(layout)
    ensures AllTidy(Continuation(layout, next)) && Tag("Contents") !in Continuation(layout, next)
  {
    if next.Some? {
      hide Field, Escaped, Tidy, AllTidy;
      NotInForeign(layout.gap, "Contents");
      GapTidy(layout);
      hide NAMES, Foreign;
      NamesDiffer();
      ContinuationIsTidy();
      var token := Escaped(next.value, layout.also);
      EscapedIsPlain(next.value, layout.also);
      FieldTidy(layout, "NextContinuationToken", token);
      FieldLacks(layout, "NextContinuationToken", token, "Contents");
    }
  }

  /** The page says whether there is more. */
  lemma TruncationReads(before: seq<Token>, layout: Layout, next: Option<string>, after: seq<Token>)
    requires Plain(layout) && AllTidy(before) && AllTidy(after) && Tag("IsTruncated") !in before
    ensures Element(Render(before + (Truncation(layout, next) + after)), "IsTruncated")
         == Some(if next.Some? then "true" else "false")
  {
    hide Render, Element, AllTidy, Field;
    assert Tidy(Tag("IsTruncated"));
    FieldReads(before, layout, "IsTruncated", if next.Some? then "true" else "false", after);
  }

  /** And names the token when there is. */
  lemma ContinuationReads(before: seq<Token>, layout: Layout, next: Option<string>, after: seq<Token>)
    requires Plain(layout) && AllTidy(before) && AllTidy(after) && Tag("NextContinuationToken") !in before && next.Some?
    ensures Element(Render(before + (Continuation(layout, next) + after)), "NextContinuationToken")
         == Some(Escaped(next.value, layout.also))
  {
    hide Render, Element, AllTidy, Tidy, Field, Escaped;
    ContinuationIsTidy();
    EscapedIsPlain(next.value, layout.also);
    FieldReads(before, layout, "NextContinuationToken", Escaped(next.value, layout.also), after);
  }

  lemma FlagReads(more: bool)
    ensures EqIgnoreCase(Trim(if more then "true" else "false"), "true") <==> more
  {
    TrimPlain("true");
    TrimPlain("false");
  }

  /** Whatever a server puts between the elements, and whichever of the optional entities it writes, scanning the page
      gives back every entry, in order, and the token of the next page. */
  lemma PageReads(layout: Layout, stamps: Stamps, page: Page)
    requires Plain(layout) && Lawful(stamps) && forall i :: 0 <= i < |page.entries| ==> page.entries[i].size < U64_LIMIT
    ensures ParsePage(RenderPage(layout, stamps, page), stamps) == Some(page)
  {
    hide Render, Element, Escaped, Foreign, AllTidy, Field, Split, Blocks, Truncation, Continuation, ParseBlocks,
         Lawful, Trim, EqIgnoreCase, Unescaped;
    var first, second, blocks := Truncation(layout, page.next), Continuation(layout, page.next),
                                 Blocks(layout, stamps, page.entries);
    var before := layout.prologue + first + second;
    GapTidy(layout);
    PrologueLacks(layout);
    TruncationTidy(layout, page.next);
    ContinuationTidy(layout, page.next);
    BlocksTidy(layout, stamps, page.entries);
    TidyConcat(layout.prologue, first);
    TidyConcat(layout.prologue + first, second);
    TidyConcat(second, blocks);
    TruncationReads(layout.prologue, layout, page.next, second + blocks);
    FlagReads(page.next.Some?);
    BlocksSplit(before, layout, stamps, page.entries);
    assert before + blocks == layout.prologue + (first + (second + blocks));
    PartsParse(Split(Render(before + blocks), "<Contents>")[1..], stamps, page.entries);
    if page.next.Some? {
      assert layout.prologue + first + (second + blocks) == layout.prologue + (first + (second + blocks));
      ContinuationReads(layout.prologue + first, layout, page.next, blocks);
      UnescapeEscaped(page.next.value, layout.also);
    }
  }
}
