/** The header names of the reading, on the text of a line: what each name starts, in any letter
    case and with blanks around it, and that no other name starts anything. */
module SipNames {
  import opened SipHeaders
  import opened Numerics

  // ---- text ----

  /** The characters Unicode calls white space. */
  const WHITE: seq<char> := [
    '\U{9}', '\U{A}', '\U{B}', '\U{C}', '\U{D}', '\U{20}', '\U{85}', '\U{A0}', '\U{1680}',
    '\U{2000}', '\U{2001}', '\U{2002}', '\U{2003}', '\U{2004}', '\U{2005}', '\U{2006}', '\U{2007}',
    '\U{2008}', '\U{2009}', '\U{200A}', '\U{2028}', '\U{2029}', '\U{202F}', '\U{205F}', '\U{3000}']

  predicate White(c: char) {
    c in WHITE
  }

  lemma SpacesAreWhite(c: char)
    ensures IsSpace(c) <==> White(c)
  {
  }

  predicate Blank(s: string) {
    forall i :: 0 <= i < |s| ==> White(s[i])
  }

  /** Empty, or with no blank at either end. */
  predicate Solid(s: string) {
    s != "" ==> !White(s[0]) && !White(s[|s| - 1])
  }

  lemma {:induction false} TrimStartDrops(pre: string, s: string)
    requires Blank(pre) && (s != "" ==> !White(s[0]))
    ensures TrimStart(pre + s) == s
  {
    hide White, IsSpace;
    if pre + s != "" {
      SpacesAreWhite((pre + s)[0]);
    }
    if pre == "" {
      assert pre + s == s;
    } else {
      assert (pre + s)[1..] == pre[1..] + s;
      TrimStartDrops(pre[1..], s);
    }
  }

  lemma {:induction false} TrimEndDrops(s: string, post: string)
    requires Blank(post) && (s != "" ==> !White(s[|s| - 1]))
    ensures TrimEnd(s + post) == s
  {
    hide White, IsSpace;
    if s + post != "" {
      SpacesAreWhite((s + post)[|s + post| - 1]);
    }
    if post == "" {
      assert s + post == s;
    } else {
      assert (s + post)[..|s + post| - 1] == s + post[..|post| - 1];
      TrimEndDrops(s, post[..|post| - 1]);
    }
  }

  lemma {:induction false} TrimStartOfBlank(s: string)
    requires Blank(s)
    ensures TrimStart(s) == ""
  {
    hide White, IsSpace;
    if s != "" {
      SpacesAreWhite(s[0]);
      TrimStartOfBlank(s[1..]);
    }
  }

  /** Trimming takes off the blanks at both ends, and nothing else. */
  lemma TrimIsTheCore(pre: string, core: string, post: string)
    requires Blank(pre) && Solid(core) && Blank(post)
    ensures Trim(pre + core + post) == core
  {
    hide White, IsSpace;
    if core == "" {
      assert pre + core + post == pre + post;
      TrimStartOfBlank(pre + post);
    } else {
      assert pre + core + post == pre + (core + post);
      TrimStartDrops(pre, core + post);
      TrimEndDrops(core, post);
    }
  }

  /** The same letter, perhaps in the other case. */
  predicate SameLetter(a: char, b: char) {
    || a == b
    || ('A' <= a <= 'Z' && b as int == a as int + 32)
    || ('A' <= b <= 'Z' && a as int == b as int + 32)
  }

  predicate EqualIgnoringCase(a: string, b: string) {
    |a| == |b| && forall i :: 0 <= i < |a| ==> SameLetter(a[i], b[i])
  }

  lemma SameNameIgnoresCase(a: string, b: string)
    ensures SameName(a, b) <==> EqualIgnoringCase(a, b)
  {
    forall i | 0 <= i < |a| && i < |b| ensures Lower(a[i]) == Lower(b[i]) <==> SameLetter(a[i], b[i]) {}
  }

  // ---- the names ----

  /** A header name, long or compact (section 7.3.3 of RFC 3261), the field it starts and the name a
      repeat of it is reported under. */
  datatype Name = Name(text: string, slot: Slot, repeat: string)

  const NAMES: seq<Name> := [
    Name("Via", Via, "Via"), Name("v", Via, "Via"),
    Name("From", From, "From"), Name("f", From, "From"),
    Name("To", To, "To"), Name("t", To, "To"),
    Name("Call-ID", CallId, "Call-ID"), Name("i", CallId, "Call-ID"),
    Name("CSeq", CSeq, "CSeq"),
    Name("User-Agent", UserAgent, "User-Agent"),
    Name("P-Asserted-Identity", PAssertedIdentity, "P-Asserted-Identity"),
    Name("Authorization", Credential, "Authorization"),
    Name("Proxy-Authorization", Credential, "Proxy-Authorization")]

  lemma DiffersAt(a: string, b: string, i: nat)
    requires i < |a| && i < |b| && Lower(a[i]) != Lower(b[i])
    ensures !SameName(a, b)
  {
  }

  lemma NamesOfEqualLengthDiffer()
    ensures !SameName("f", "v") && !SameName("t", "v") && !SameName("i", "v")
    ensures !SameName("t", "f") && !SameName("i", "f") && !SameName("i", "t")
    ensures !SameName("CSeq", "From") && !SameName("Proxy-Authorization", "P-Asserted-Identity")
  {
    DiffersAt("f", "v", 0);
    DiffersAt("t", "v", 0);
    DiffersAt("i", "v", 0);
    DiffersAt("t", "f", 0);
    DiffersAt("i", "f", 0);
    DiffersAt("i", "t", 0);
    DiffersAt("CSeq", "From", 0);
    DiffersAt("Proxy-Authorization", "P-Asserted-Identity", 1);
  }

  lemma NamesByLength()
    ensures forall a: string, b: string :: |a| != |b| ==> !SameName(a, b)
    ensures forall a: string :: SameName(a, a)
  {
  }

  lemma NamesAreKinds(k: nat)
    requires k < |NAMES|
    ensures KindOf(NAMES[k].text) == Some(Kind(NAMES[k].slot, NAMES[k].repeat))
  {
    hide SameName;
    NamesByLength();
    NamesOfEqualLengthDiffer();
  }

  lemma NameMeans(a: string, b: string)
    requires SameName(a, b)
    ensures KindOf(a) == KindOf(b)
  {
  }

  lemma NothingElseIsAKind(name: string)
    requires forall k :: 0 <= k < |NAMES| ==> !EqualIgnoringCase(name, NAMES[k].text)
    ensures KindOf(name).None?
  {
    forall k | 0 <= k < |NAMES| ensures !SameName(name, NAMES[k].text) {
      SameNameIgnoresCase(name, NAMES[k].text);
    }
    NoneOfTheNames(name);
  }

  lemma NoneOfTheNames(name: string)
    requires forall k :: 0 <= k < |NAMES| ==> !SameName(name, NAMES[k].text)
    ensures KindOf(name).None?
  {
    hide SameName;
    assert !SameName(name, NAMES[0].text) && !SameName(name, NAMES[1].text) && !SameName(name, NAMES[2].text);
    assert !SameName(name, NAMES[3].text) && !SameName(name, NAMES[4].text) && !SameName(name, NAMES[5].text);
    assert !SameName(name, NAMES[6].text) && !SameName(name, NAMES[7].text) && !SameName(name, NAMES[8].text);
    assert !SameName(name, NAMES[9].text) && !SameName(name, NAMES[10].text) && !SameName(name, NAMES[11].text);
    assert !SameName(name, NAMES[12].text);
  }

  // ---- the lines ----

  /** A name with blanks around it, a colon, and a value with blanks around it. */
  datatype Header = Header(pre: string, name: string, post: string, before: string, value: string, behind: string) {
    function Line(): string {
      pre + name + post + ":" + (before + value + behind)
    }

    /** It is no continuation, and the colon is the first. */
    predicate Valid() {
      && Blank(pre) && Blank(post) && Blank(before) && Blank(behind) && Solid(name) && Solid(value)
      && !Continues(Line()) && forall i :: 0 <= i < |name| ==> name[i] != ':'
    }
  }

  lemma ColonIsAt(key: string, rest: string, i: nat)
    requires i <= |key| && forall j :: 0 <= j < |key| ==> key[j] != ':'
    ensures ColonAt(key + ":" + rest, i) == Some(|key|)
    decreases |key| - i
  {
    if i < |key| {
      ColonIsAt(key, rest, i + 1);
    }
  }

  lemma HeaderSplits(h: Header)
    requires h.Valid()
    ensures h.Line() != "" && HeaderOf(h.Line()) == KindOf(h.name) && ValueOf(h.Line()) == h.value
  {
    var line, key, rest := h.Line(), h.pre + h.name + h.post, h.before + h.value + h.behind;
    forall j | 0 <= j < |key| ensures key[j] != ':' {
      KeyHasNoColon(h.pre, h.name, h.post, j);
    }
    ColonIsAt(key, rest, 0);
    assert line[..|key|] == key && line[|key| + 1..] == rest;
    TrimIsTheCore(h.pre, h.name, h.post);
    TrimIsTheCore(h.before, h.value, h.behind);
  }

  lemma KeyHasNoColon(pre: string, name: string, post: string, j: nat)
    requires Blank(pre) && Blank(post) && j < |pre + name + post|
    requires forall i :: 0 <= i < |name| ==> name[i] != ':'
    ensures (pre + name + post)[j] != ':'
  {
  }

  lemma ParsedOne(line: string)
    requires line != ""
    ensures Parsed([line]) == Stepped(NOTHING_READ, line)
    ensures Parsed([line, line]) == Stepped(Stepped(NOTHING_READ, line), line)
  {
    hide Stepped;
    assert HeaderEnd([line], 0) == 1 && HeaderEnd([line, line], 0) == 2;
    assert Read([line], 0) == NOTHING_READ && [line][0] == line;
    assert Read([line, line], 1) == Stepped(NOTHING_READ, line);
  }

  /** Each of the thirteen names, in any letter case and with blanks around it, starts its own field
      with the value behind the colon, blanks around it dropped; said twice, the second is a repeat
      under the name's long form, but for Via, of which only the topmost counts. */
  lemma NameStartsItsField(k: nat, h: Header)
    requires k < |NAMES| && EqualIgnoringCase(h.name, NAMES[k].text) && h.Valid()
    ensures Parsed([h.Line()]).fields == map[NAMES[k].slot := h.value] && Parsed([h.Line()]).duplicate == None
    ensures Parsed([h.Line(), h.Line()]).fields == map[NAMES[k].slot := h.value]
    ensures Parsed([h.Line(), h.Line()]).duplicate == if NAMES[k].slot == Via then None else Some(NAMES[k].repeat)
  {
    hide KindOf, HeaderOf, ValueOf, Header.Line;
    HeaderSplits(h);
    SameNameIgnoresCase(h.name, NAMES[k].text);
    NameMeans(h.name, NAMES[k].text);
    NamesAreKinds(k);
    ParsedOne(h.Line());
  }

  lemma ParsedTwo(line: string, next: string)
    requires line != "" && next != ""
    ensures Parsed([line, next]) == Stepped(Stepped(NOTHING_READ, line), next)
  {
    hide Stepped;
    assert HeaderEnd([line, next], 0) == 2;
    assert Read([line, next], 0) == NOTHING_READ;
    assert Read([line, next], 1) == Stepped(NOTHING_READ, line);
  }

  /** A line that begins with a space or a tab goes on with the header above it: what it holds is
      joined on with one space. Any other header line is no continuation. */
  lemma NextLineIsJoined(k: nat, h: Header, pre: string, core: string, post: string)
    requires k < |NAMES| && EqualIgnoringCase(h.name, NAMES[k].text) && h.Valid()
    requires pre != "" && (pre[0] == ' ' || pre[0] == '\t') && Blank(pre) && Solid(core) && Blank(post)
    ensures Parsed([h.Line(), pre + core + post]).fields == map[NAMES[k].slot := h.value + " " + core]
    ensures Parsed([h.Line(), pre + core + post]).folded && !Parsed([h.Line()]).folded
  {
    hide KindOf, HeaderOf, ValueOf, Header.Line, Trim;
    HeaderSplits(h);
    SameNameIgnoresCase(h.name, NAMES[k].text);
    NameMeans(h.name, NAMES[k].text);
    NamesAreKinds(k);
    ParsedOne(h.Line());
    ParsedTwo(h.Line(), pre + core + post);
    TrimIsTheCore(pre, core, post);
  }

  /** A line with any other name starts none. */
  lemma OtherNamesStartNothing(h: Header)
    requires h.Valid() && forall k :: 0 <= k < |NAMES| ==> !EqualIgnoringCase(h.name, NAMES[k].text)
    ensures Parsed([h.Line()]).fields == map[] && Parsed([h.Line(), h.Line()]).duplicate == None
  {
    hide KindOf, HeaderOf, ValueOf, Header.Line;
    HeaderSplits(h);
    NothingElseIsAKind(h.name);
    ParsedOne(h.Line());
  }

  /** A line without a colon starts none, and every line with one that is no continuation has a name
      and a value. */
  lemma EveryLineIsRead(line: string) returns (h: Header)
    requires line != "" && !Continues(line)
    ensures if forall i :: 0 <= i < |line| ==> line[i] != ':' then Parsed([line]).fields == map[] else h.Valid() && h.Line() == line
  {
    hide Trim, KindOf, Blank, Solid;
    ParsedOne(line);
    h := Header("", "", "", "", "", "");
    if ColonAt(line, 0).Some? {
      h := SplitAtColon(line, ColonAt(line, 0).value);
    }
  }

  lemma SplitAtColon(line: string, c: nat) returns (h: Header)
    requires c < |line| && line[c] == ':' && !Continues(line) && forall i :: 0 <= i < c ==> line[i] != ':'
    ensures h.Valid() && h.Line() == line
  {
    hide Blank, Solid;
    var pre, name, post := Cored(line[..c]);
    var before, value, behind := Cored(line[c + 1..]);
    h := Header(pre, name, post, before, value, behind);
    assert line == line[..c] + ":" + line[c + 1..];
    forall j | 0 <= j < |name| ensures name[j] != ':' {
      assert name[j] == line[..c][|pre| + j];
    }
  }

  /** Every text is a core with blanks around it. */
  lemma {:induction false} Cored(s: string) returns (pre: string, core: string, post: string)
    ensures Blank(pre) && Solid(core) && Blank(post) && s == pre + core + post
  {
    hide White;
    if s != "" && White(s[0]) {
      pre, core, post := Cored(s[1..]);
      pre := [s[0]] + pre;
    } else if s != "" && White(s[|s| - 1]) {
      pre, core, post := Cored(s[..|s| - 1]);
      post := post + [s[|s| - 1]];
    } else {
      pre, core, post := "", s, "";
    }
  }
}
