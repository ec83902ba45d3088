/** The one-pass reading of a SIP request's header lines, against what each field of it means
    for the message as a whole. */
module SipHeaders {
  import opened Numerics

  // ---- text ----

  predicate IsSpace(c: char) {
    || '\t' <= c <= '\r' || c == ' ' || c == '\U{85}' || c == '\U{A0}' || c == '\U{1680}'
    || '\U{2000}' <= c <= '\U{200A}' || c == '\U{2028}' || c == '\U{2029}' || c == '\U{202F}'
    || c == '\U{205F}' || c == '\U{3000}'
  }

  function TrimStart(s: string): string {
    if s != "" && IsSpace(s[0]) then TrimStart(s[1..]) else s
  }

  function TrimEnd(s: string): string {
    if s != "" && IsSpace(s[|s| - 1]) then TrimEnd(s[..|s| - 1]) else s
  }

  function Trim(s: string): string {
    TrimEnd(TrimStart(s))
  }

  function Lower(c: char): char {
    if 'A' <= c <= 'Z' then (c as int + 32) as char else c
  }

  predicate SameName(a: string, b: string) {
    |a| == |b| && forall i :: 0 <= i < |a| ==> Lower(a[i]) == Lower(b[i])
  }

  /** The first colon from position i on. */
  function ColonAt(s: string, i: nat): (at: Option<nat>)
    requires i <= |s|
    ensures at.Some? ==> i <= at.value < |s| && s[at.value] == ':' && forall j :: i <= j < at.value ==> s[j] != ':'
    ensures at.None? ==> forall j :: i <= j < |s| ==> s[j] != ':'
    decreases |s| - i
  {
    if i == |s| then None else if s[i] == ':' then Some(i) else ColonAt(s, i + 1)
  }

  // ---- lines ----

  /** The headers the reading keeps: one topmost Via, six singletons, one credential. */
  datatype Slot = Via | From | To | CallId | CSeq | UserAgent | PAssertedIdentity | Credential

  /** A header's slot and the label a repeat of it is reported under. */
  datatype Kind = Kind(slot: Slot, name: string)

  /** What a header name stands for, long or compact, in any letter case. */
  function KindOf(name: string): Option<Kind> {
    if SameName(name, "Via") || SameName(name, "v") then Some(Kind(Via, "Via"))
    else if SameName(name, "From") || SameName(name, "f") then Some(Kind(From, "From"))
    else if SameName(name, "To") || SameName(name, "t") then Some(Kind(To, "To"))
    else if SameName(name, "Call-ID") || SameName(name, "i") then Some(Kind(CallId, "Call-ID"))
    else if SameName(name, "CSeq") then Some(Kind(CSeq, "CSeq"))
    else if SameName(name, "User-Agent") then Some(Kind(UserAgent, "User-Agent"))
    else if SameName(name, "P-Asserted-Identity") then Some(Kind(PAssertedIdentity, "P-Asserted-Identity"))
    else if SameName(name, "Authorization") then Some(Kind(Credential, "Authorization"))
    else if SameName(name, "Proxy-Authorization") then Some(Kind(Credential, "Proxy-Authorization"))
    else None
  }

  predicate Continues(line: string) {
    line != "" && (line[0] == ' ' || line[0] == '\t')
  }

  /** The header a line starts, if it starts one the reading keeps. */
  function HeaderOf(line: string): Option<Kind> {
    if Continues(line) || ColonAt(line, 0).None? then None
    else KindOf(Trim(line[..ColonAt(line, 0).value]))
  }

  function ValueOf(line: string): string {
    match ColonAt(line, 0)
    case None => ""
    case Some(c) => Trim(line[c + 1..])
  }

  // ---- the reading, one line at a time ----

  /** The fields filled so far, whether a continuation was met, the first repeat, the field a
      continuation would join, and the credential header that came first. */
  datatype Reading = Reading(
    fields: map<Slot, string>,
    folded: bool,
    duplicate: Option<string>,
    last: Option<Slot>,
    credential: Option<string>)

  const NOTHING_READ := Reading(map[], false, None, None, None)

  function Stepped(r: Reading, line: string): Reading {
    if Continues(line) then
      var joined := r.(folded := true);
      if r.last.Some? && r.last.value in r.fields then
        joined.(fields := r.fields[r.last.value := r.fields[r.last.value] + " " + Trim(line)])
      else joined
    else match HeaderOf(line)
      case None => r.(last := None)
      case Some(Kind(slot, name)) =>
        if slot !in r.fields then
          r.(fields := r.fields[slot := ValueOf(line)], last := Some(slot),
             credential := if slot == Credential then Some(name) else r.credential)
        else
          r.(last := None,
             duplicate := if r.duplicate.None? && slot != Via && (slot == Credential ==> r.credential == Some(name))
                          then Some(name) else r.duplicate)
  }

  function Read(lines: seq<string>, n: nat): Reading
    requires n <= |lines|
  {
    if n == 0 then NOTHING_READ else Stepped(Read(lines, n - 1), lines[n - 1])
  }

  /** Headers end at the first empty line. */
  function HeaderEnd(lines: seq<string>, i: nat): (end: nat)
    requires i <= |lines|
    ensures i <= end <= |lines|
    ensures forall j :: i <= j < end ==> lines[j] != ""
    ensures end < |lines| ==> lines[end] == ""
    decreases |lines| - i
  {
    if i == |lines| || lines[i] == "" then i else HeaderEnd(lines, i + 1)
  }

  function Parsed(lines: seq<string>): Reading {
    Read(lines, HeaderEnd(lines, 0))
  }

  // ---- the meaning of a message's header lines ----

  /** The field a line starts, if any. */
  function SlotOf(line: string): Option<Slot> {
    match HeaderOf(line) case None => None case Some(h) => Some(h.slot)
  }

  /** The first of the first n lines that starts this header. */
  function First(lines: seq<string>, n: nat, slot: Slot): (i: Option<nat>)
    requires n <= |lines|
    ensures i.Some? ==> && i.value < n && SlotOf(lines[i.value]) == Some(slot)
                        && forall j :: 0 <= j < i.value ==> SlotOf(lines[j]) != Some(slot)
    ensures i.None? ==> forall j :: 0 <= j < n ==> SlotOf(lines[j]) != Some(slot)
  {
    if n == 0 then None
    else
      var before := First(lines, n - 1, slot);
      if before.Some? then before else if SlotOf(lines[n - 1]) == Some(slot) then Some(n - 1) else None
  }

  /** Everything strictly between line i and line n continues line i. */
  predicate Unbroken(lines: seq<string>, i: nat, n: nat)
    requires i < n <= |lines|
  {
    forall j :: i < j < n ==> Continues(lines[j])
  }

  /** The value of the header at line i with the continuation lines right below it, and no
      others, joined on. */
  function Joined(lines: seq<string>, i: nat, n: nat): string
    requires i < n <= |lines|
  {
    if n == i + 1 then ValueOf(lines[i])
    else if Unbroken(lines, i, n) then Joined(lines, i, n - 1) + " " + Trim(lines[n - 1])
    else Joined(lines, i, n - 1)
  }

  /** Line j repeats a singleton. The topmost Via is the one that counts, so a second is no
      repeat; of the two credential headers only the one that came first can be repeated. */
  predicate Repeats(lines: seq<string>, j: nat)
    requires j < |lines|
  {
    HeaderOf(lines[j]).Some?
    && var h := HeaderOf(lines[j]).value;
       var first := First(lines, j, h.slot);
       h.slot != Via && first.Some? && (h.slot == Credential ==> NameAt(lines, first.value) == h.name)
  }

  /** The repeat that comes first. */
  function FirstRepeat(lines: seq<string>, n: nat): (j: Option<nat>)
    requires n <= |lines|
    ensures j.Some? ==> j.value < n
  {
    if n == 0 then None
    else if FirstRepeat(lines, n - 1).Some? then FirstRepeat(lines, n - 1)
    else if Repeats(lines, n - 1) then Some(n - 1)
    else None
  }

  lemma {:induction false} FirstRepeatIsFirst(lines: seq<string>, n: nat)
    requires n <= |lines|
    ensures match FirstRepeat(lines, n)
            case None => forall i :: 0 <= i < n ==> !Repeats(lines, i)
            case Some(j) => Repeats(lines, j) && forall i :: 0 <= i < j ==> !Repeats(lines, i)
  {
    hide Repeats;
    if n > 0 {
      FirstRepeatIsFirst(lines, n - 1);
    }
  }

  /** The name a line's header is reported under. */
  function NameAt(lines: seq<string>, i: nat): string
    requires i < |lines|
  {
    match HeaderOf(lines[i]) case None => "" case Some(h) => h.name
  }

  /** The field of one header: its first occurrence, joined with its own continuations. */
  predicate FieldMeans(r: Reading, lines: seq<string>, n: nat, s: Slot)
    requires n <= |lines|
  {
    && (s in r.fields <==> First(lines, n, s).Some?)
    && (s in r.fields ==> r.fields[s] == Joined(lines, First(lines, n, s).value, n))
  }

  predicate FoldedMeans(r: Reading, lines: seq<string>, n: nat)
    requires n <= |lines|
  {
    r.folded <==> exists j :: 0 <= j < n && Continues(lines[j])
  }

  predicate DuplicateMeans(r: Reading, lines: seq<string>, n: nat)
    requires n <= |lines|
  {
    r.duplicate == match FirstRepeat(lines, n) case None => None case Some(j) => Some(NameAt(lines, j))
  }

  /** Working state: is this header the one still open to continuations? */
  predicate OpenMeans(r: Reading, lines: seq<string>, n: nat, s: Slot)
    requires n <= |lines|
  {
    r.last == Some(s) <==> First(lines, n, s).Some? && Unbroken(lines, First(lines, n, s).value, n)
  }

  /** Working state: the name of the first credential header. */
  predicate CredentialMeans(r: Reading, lines: seq<string>, n: nat)
    requires n <= |lines|
  {
    r.credential == match First(lines, n, Credential) case None => None case Some(i) => Some(NameAt(lines, i))
  }

  lemma FieldOverContinuation(r: Reading, lines: seq<string>, n: nat, s: Slot)
    requires n < |lines| && Continues(lines[n]) && FieldMeans(r, lines, n, s) && OpenMeans(r, lines, n, s)
    ensures FieldMeans(Stepped(r, lines[n]), lines, n + 1, s) && OpenMeans(Stepped(r, lines[n]), lines, n + 1, s)
  {
    hide HeaderOf, Continues, ValueOf, Trim;
    ContinuesNoHeader(lines[n]);
    assert First(lines, n + 1, s) == First(lines, n, s);
    if First(lines, n, s).Some? {
      var i := First(lines, n, s).value;
      assert Unbroken(lines, i, n + 1) == Unbroken(lines, i, n);
    }
  }

  lemma ContinuesNoHeader(line: string)
    ensures Continues(line) ==> HeaderOf(line).None?
  {
  }

  lemma FieldOverHeader(r: Reading, lines: seq<string>, n: nat, s: Slot)
    requires n < |lines| && !Continues(lines[n]) && FieldMeans(r, lines, n, s) && OpenMeans(r, lines, n, s)
    ensures FieldMeans(Stepped(r, lines[n]), lines, n + 1, s) && OpenMeans(Stepped(r, lines[n]), lines, n + 1, s)
  {
    hide HeaderOf, Continues, ValueOf, Trim, NameAt;
    if First(lines, n, s).Some? {
      KeptOverHeader(r, lines, n, s);
    } else {
      FirstSeen(lines, n, s);
    }
  }

  lemma KeptOverHeader(r: Reading, lines: seq<string>, n: nat, s: Slot)
    requires n < |lines| && !Continues(lines[n]) && FieldMeans(r, lines, n, s) && First(lines, n, s).Some?
    ensures FieldMeans(Stepped(r, lines[n]), lines, n + 1, s) && OpenMeans(Stepped(r, lines[n]), lines, n + 1, s)
  {
    hide HeaderOf, Continues, ValueOf, Trim, NameAt;
    assert First(lines, n + 1, s) == First(lines, n, s);
    assert !Unbroken(lines, First(lines, n, s).value, n + 1);
  }

  lemma FirstSeen(lines: seq<string>, n: nat, s: Slot)
    requires n < |lines| && First(lines, n, s).None?
    ensures First(lines, n + 1, s)
         == if HeaderOf(lines[n]).Some? && HeaderOf(lines[n]).value.slot == s then Some(n) else None
  {
    hide HeaderOf;
  }

  lemma CredentialStep(r: Reading, lines: seq<string>, n: nat)
    requires n < |lines| && CredentialMeans(r, lines, n) && FieldMeans(r, lines, n, Credential)
    ensures CredentialMeans(Stepped(r, lines[n]), lines, n + 1)
  {
    hide HeaderOf, Continues, ValueOf, Trim, Joined;
    ContinuesNoHeader(lines[n]);
  }

  lemma DuplicateStep(r: Reading, lines: seq<string>, n: nat)
    requires n < |lines| && DuplicateMeans(r, lines, n) && CredentialMeans(r, lines, n)
    requires forall s :: FieldMeans(r, lines, n, s)
    ensures DuplicateMeans(Stepped(r, lines[n]), lines, n + 1)
  {
    hide HeaderOf, Continues, ValueOf, Trim, Joined;
    ContinuesNoHeader(lines[n]);
    if HeaderOf(lines[n]).Some? {
      assert FieldMeans(r, lines, n, HeaderOf(lines[n]).value.slot);
      assert FieldMeans(r, lines, n, Credential);
    }
  }

  lemma {:induction false} ReadMeans(lines: seq<string>, n: nat)
    requires n <= |lines|
    ensures var r := Read(lines, n);
            && (forall s :: FieldMeans(r, lines, n, s) && OpenMeans(r, lines, n, s))
            && FoldedMeans(r, lines, n) && DuplicateMeans(r, lines, n) && CredentialMeans(r, lines, n)
  {
    hide HeaderOf, Stepped, FieldMeans, OpenMeans, FoldedMeans, DuplicateMeans, CredentialMeans;
    if n == 0 {
      NothingMeans(lines);
    } else {
      var r := Read(lines, n - 1);
      ReadMeans(lines, n - 1);
      forall s
        ensures FieldMeans(Read(lines, n), lines, n, s) && OpenMeans(Read(lines, n), lines, n, s)
      {
        if Continues(lines[n - 1]) {
          FieldOverContinuation(r, lines, n - 1, s);
        } else {
          FieldOverHeader(r, lines, n - 1, s);
        }
      }
      FoldedStep(r, lines, n - 1);
      CredentialStep(r, lines, n - 1);
      DuplicateStep(r, lines, n - 1);
    }
  }

  lemma NothingMeans(lines: seq<string>)
    ensures forall s :: FieldMeans(NOTHING_READ, lines, 0, s) && OpenMeans(NOTHING_READ, lines, 0, s)
    ensures FoldedMeans(NOTHING_READ, lines, 0)
    ensures DuplicateMeans(NOTHING_READ, lines, 0) && CredentialMeans(NOTHING_READ, lines, 0)
  {
  }

  lemma FoldedStep(r: Reading, lines: seq<string>, n: nat)
    requires n < |lines| && FoldedMeans(r, lines, n)
    ensures FoldedMeans(Stepped(r, lines[n]), lines, n + 1)
  {
    hide HeaderOf, Continues, ValueOf, Trim;
  }

  /** The one-pass reading equals its meaning, for every message: each field is the first
      occurrence of its header, under any of its names, joined with exactly its own
      continuation lines; a continuation anywhere is noted; and the duplicate named is the
      header whose repeat comes first. */
  lemma OnePassIsItsMeaning(lines: seq<string>)
    ensures var n := HeaderEnd(lines, 0);
            && (forall s :: FieldMeans(Parsed(lines), lines, n, s))
            && FoldedMeans(Parsed(lines), lines, n)
            && DuplicateMeans(Parsed(lines), lines, n)
  {
    ReadMeans(lines, HeaderEnd(lines, 0));
  }

  // ---- the loop ----

  /** The header loop of a request: fills the fields line by line until the headers end. */
  method ParseHeaders(lines: seq<string>) returns (fields: map<Slot, string>, folded: bool, duplicate: Option<string>)
    ensures fields == Parsed(lines).fields && folded == Parsed(lines).folded && duplicate == Parsed(lines).duplicate
  {
    hide HeaderOf, KindOf, Trim, SameName;
    fields, folded, duplicate := map[], false, None;
    var last: Option<Slot> := None;
    var authName: Option<string> := None;
    var i := 0;
    while i < |lines|
      invariant 0 <= i <= |lines|
      invariant HeaderEnd(lines, 0) == HeaderEnd(lines, i)
      invariant Read(lines, i) == Reading(fields, folded, duplicate, last, authName)
      invariant Credential in fields <==> authName.Some?
    {
      var line := lines[i];
      if line == "" {
        return;
      }
      i := i + 1;
      if line[0] == ' ' || line[0] == '\t' {
        folded := true;
        if last.Some? && last.value in fields {
          fields := fields[last.value := fields[last.value] + " " + Trim(line)];
        }
        continue;
      }
      var kind := HeaderOf(line);
      if kind.None? {
        last := None;
        continue;
      }
      var slot, name := kind.value.slot, kind.value.name;
      var value := ValueOf(line);
      if slot == Via {
        if Via !in fields {
          fields := fields[Via := value];
          last := Some(Via);
        } else {
          last := None;
        }
      } else if slot != Credential {
        if slot in fields {
          duplicate := if duplicate.Some? then duplicate else Some(name);
          last := None;
        } else {
          fields := fields[slot := value];
          last := Some(slot);
        }
      } else if authName.Some? {
        if authName.value == name {
          duplicate := if duplicate.Some? then duplicate else Some(name);
        }
        last := None;
      } else {
        fields := fields[Credential := value];
        authName := Some(name);
        last := Some(Credential);
      }
    }
  }

  // ---- unfolding ----

  /** A line with a name before a colon: one a continuation may follow. */
  predicate IsHeaderLine(line: string) {
    line != "" && !Continues(line) && ColonAt(line, 0).Some?
  }

  /** A line with its continuation written behind it on the same line. */
  function Rejoined(line: string, continuation: string): string {
    TrimEnd(line) + " " + Trim(continuation)
  }

  /** The first n lines with every continuation put back on its header's line. */
  function Unfolded(lines: seq<string>, n: nat): seq<string>
    requires n <= |lines|
  {
    if n == 0 then []
    else
      var before := Unfolded(lines, n - 1);
      if Continues(lines[n - 1]) && before != [] then
        before[..|before| - 1] + [Rejoined(before[|before| - 1], lines[n - 1])]
      else before + [lines[n - 1]]
  }

  /** Every continuation follows another one or a header line. */
  predicate WellFolded(lines: seq<string>) {
    forall j :: 0 <= j < |lines| && Continues(lines[j]) ==>
      j > 0 && (Continues(lines[j - 1]) || IsHeaderLine(lines[j - 1]))
  }

  /** What a value becomes when a continuation is written behind it: a blank side leaves no
      space. */
  function Glued(value: string, part: string): string {
    if value == "" then part else if part == "" then value else value + " " + part
  }

  lemma {:induction false} TrimEndKeepsHead(s: string, i: nat)
    requires i < |s| && !IsSpace(s[i])
    ensures i < |TrimEnd(s)| <= |s| && TrimEnd(s) == s[..|TrimEnd(s)|]
  {
    if IsSpace(s[|s| - 1]) {
      TrimEndKeepsHead(s[..|s| - 1], i);
    }
  }

  /** Trimming the end leaves a text alone exactly when it is empty or ends in a character
      that is not a space. */
  lemma {:induction false} TrimEndEnds(s: string)
    ensures TrimEnd(s) == "" || !IsSpace(TrimEnd(s)[|TrimEnd(s)| - 1])
    ensures TrimEnd(TrimEnd(s)) == TrimEnd(s)
  {
    if s != "" && IsSpace(s[|s| - 1]) {
      TrimEndEnds(s[..|s| - 1]);
    }
  }

  /** Trimming the end of a text splits over any head that stays. */
  lemma {:induction false} TrimEndOfTail(head: string, tail: string)
    requires TrimEnd(tail) != ""
    ensures TrimEnd(head + tail) == head + TrimEnd(tail)
  {
    if IsSpace(tail[|tail| - 1]) {
      assert (head + tail)[..|head + tail| - 1] == head + tail[..|tail| - 1];
      TrimEndOfTail(head, tail[..|tail| - 1]);
    }
  }

  lemma {:induction false} TrimStartOfHead(head: string, tail: string)
    requires TrimStart(head) != ""
    ensures TrimStart(head + tail) == TrimStart(head) + tail
  {
    if IsSpace(head[0]) {
      assert (head + tail)[1..] == head[1..] + tail;
      TrimStartOfHead(head[1..], tail);
    }
  }

  lemma {:induction false} TrimsCommute(s: string)
    ensures TrimStart(TrimEnd(s)) == TrimEnd(TrimStart(s))
  {
    if s != "" && IsSpace(s[0]) {
      TrimsCommute(s[1..]);
      if TrimEnd(s[1..]) != "" {
        assert s == [s[0]] + s[1..];
        TrimEndOfTail([s[0]], s[1..]);
      } else {
        BlankAfterSpace(s);
      }
    } else {
      if TrimEnd(s) != "" && s != "" {
        TrimEndKeepsHead(s, 0);
      }
    }
  }

  lemma {:induction false} BlankAfterSpace(s: string)
    requires s != "" && IsSpace(s[0]) && TrimEnd(s[1..]) == ""
    ensures TrimEnd(s) == ""
  {
    if |s| > 1 {
      assert s[|s| - 1] == s[1..][|s[1..]| - 1];
      assert s[..|s| - 1][1..] == s[1..][..|s[1..]| - 1];
      BlankAfterSpace(s[..|s| - 1]);
    } else {
      assert s[..0] == "";
    }
  }

  /** A value followed by a continuation trims to the trimmed value, a space, and the trimmed
      continuation. */
  lemma TrimRejoins(raw: string, part: string)
    requires Trim(raw) != "" && Trim(part) != ""
    ensures Trim(TrimEnd(raw) + " " + Trim(part)) == Trim(raw) + " " + Trim(part)
  {
    var p := Trim(part);
    TrimsCommute(raw);
    TrimStartOfHead(TrimEnd(raw), " " + p);
    assert TrimEnd(raw) + (" " + p) == TrimEnd(raw) + " " + p;
    TrimEndEnds(TrimStart(part));
    TrimEndOfTail(Trim(raw) + " ", p);
  }

  lemma {:induction false} TrimKeeps(s: string)
    requires s == "" || (!IsSpace(s[0]) && !IsSpace(s[|s| - 1]))
    ensures Trim(s) == s
  {
  }

  lemma {:induction false} TrimStartStarts(s: string)
    ensures TrimStart(s) == "" || !IsSpace(TrimStart(s)[0])
    ensures s != "" && !IsSpace(s[|s| - 1]) ==> TrimStart(s) != ""
  {
    if s != "" && IsSpace(s[0]) {
      TrimStartStarts(s[1..]);
    }
  }

  /** Trimming is done once. */
  lemma TrimTwice(s: string)
    ensures Trim(Trim(s)) == Trim(s)
    ensures Trim(s) == "" <==> TrimEnd(s) == ""
  {
    var t := TrimStart(s);
    TrimStartStarts(s);
    TrimEndEnds(t);
    if t != "" {
      TrimEndKeepsHead(t, 0);
    }
    TrimKeeps(Trim(s));
    TrimsCommute(s);
    TrimEndEnds(s);
    TrimStartStarts(TrimEnd(s));
  }

  /** What trimming makes of a value with a continuation behind it, blank or not. */
  lemma TrimGlues(raw: string, part: string)
    ensures Trim(TrimEnd(raw) + " " + Trim(part)) == Glued(Trim(raw), Trim(part))
  {
    var x, p := TrimEnd(raw), Trim(part);
    TrimTwice(raw);
    TrimTwice(part);
    if x == "" {
      assert ("" + " " + p)[1..] == p;
    } else if p == "" {
      TrimsCommute(raw);
      TrimEndEnds(raw);
      TrimStartOfHead(x, " ");
      assert (TrimStart(x) + " ")[..|TrimStart(x)|] == TrimStart(x);
      assert x + " " + "" == x + " ";
      TrimEndEnds(TrimStart(raw));
    } else {
      TrimRejoins(raw, part);
    }
  }

  lemma {:induction false} TrimEndDropsBlank(head: string, tail: string)
    requires TrimEnd(tail) == "" && head != "" && !IsSpace(head[|head| - 1])
    ensures TrimEnd(head + tail) == head
  {
    if tail == "" {
      assert head + tail == head;
    } else {
      assert (head + tail)[..|head + tail| - 1] == head + tail[..|tail| - 1];
      TrimEndDropsBlank(head, tail[..|tail| - 1]);
    }
  }

  lemma {:induction false} ColonStays(s: string, t: string, i: nat)
    requires i <= |s| <= |t| && t[..|s|] == s && ColonAt(s, i).Some?
    ensures ColonAt(t, i) == ColonAt(s, i)
    decreases |s| - i
  {
    assert s[i] == t[i];
    if s[i] != ':' {
      ColonStays(s, t, i + 1);
    }
  }

  /** A header line with a continuation behind it keeps its name, and its value is the two
      glued. */
  lemma RejoinedHeader(line: string, continuation: string)
    requires IsHeaderLine(line) && Continues(continuation)
    ensures var r := Rejoined(line, continuation);
            && IsHeaderLine(r) && HeaderOf(r) == HeaderOf(line)
            && ValueOf(r) == Glued(ValueOf(line), Trim(continuation))
  {
    hide KindOf, Trim, IsSpace, Rejoined;
    var c := ColonAt(line, 0).value;
    RejoinedText(line, continuation, c);
    TrimGlues(line[c + 1..], continuation);
  }

  /** The text of the rejoined line: the same up to its colon, then the value and the
      continuation. */
  lemma RejoinedText(line: string, continuation: string, c: nat)
    requires ColonAt(line, 0) == Some(c)
    ensures var r := Rejoined(line, continuation);
            && ColonAt(r, 0) == Some(c) && r[..c] == line[..c] && r[0] == line[0]
            && r[c + 1..] == TrimEnd(line[c + 1..]) + " " + Trim(continuation)
  {
    hide Trim, ColonAt, TrimEnd;
    var head, raw, r := line[..c + 1], line[c + 1..], Rejoined(line, continuation);
    assert line == head + raw && head[|head| - 1] == ':';
    if TrimEnd(raw) == "" {
      TrimEndDropsBlank(head, raw);
      assert head + "" == head;
    } else {
      TrimEndOfTail(head, raw);
    }
    assert r == head + (TrimEnd(raw) + " " + Trim(continuation));
    assert r[..c + 1] == head && r[..c] == head[..c] == line[..c];
    ColonAtEnd(line, c);
    ColonStays(head, r, 0);
  }

  lemma ColonAtEnd(line: string, c: nat)
    requires ColonAt(line, 0) == Some(c)
    ensures ColonAt(line[..c + 1], 0) == Some(c)
  {
    var head := line[..c + 1];
    assert head[c] == ':';
  }

  lemma GluedIsJoined(value: string, part: string)
    ensures |Glued(value, part)| <= |value + " " + part|
    ensures Glued(value, part) == value + " " + part <==> value != "" && part != ""
  {
    assert value == "" || part == "" ==> |Glued(value, part)| < |value + " " + part|;
  }

  /** Reading a continuation by gluing it. */
  function Mended(r: Reading, line: string): Reading {
    if Continues(line) && r.last.Some? && r.last.value in r.fields then
      r.(folded := true, fields := r.fields[r.last.value := Glued(r.fields[r.last.value], Trim(line))])
    else Stepped(r, line)
  }

  function MendedRead(lines: seq<string>, n: nat): Reading
    requires n <= |lines|
  {
    if n == 0 then NOTHING_READ else Mended(MendedRead(lines, n - 1), lines[n - 1])
  }

  /** Reading a rejoined line is reading the header and gluing its continuation, apart from
      noting the fold. */
  lemma RejoiningMends(r: Reading, line: string, continuation: string)
    requires IsHeaderLine(line) && Continues(continuation)
    ensures Stepped(r, Rejoined(line, continuation)) == Mended(Stepped(r, line), continuation).(folded := r.folded)
  {
    hide HeaderOf, ValueOf, Trim, ColonAt, Rejoined;
    RejoinedHeader(line, continuation);
  }

  lemma HeaderLinesStand(line: string)
    requires IsHeaderLine(line)
    ensures !Continues(line)
  {
  }

  /** Reading a rejoined line does what reading the two lines did, apart from noting the fold,
      exactly when the header is not one to keep, or neither side is blank. */
  lemma RejoiningIsReading(r: Reading, line: string, continuation: string)
    requires IsHeaderLine(line) && Continues(continuation)
    ensures Stepped(r, Rejoined(line, continuation)) == Stepped(Stepped(r, line), continuation).(folded := r.folded)
       <==> || SlotOf(line).None? || SlotOf(line).value in r.fields
            || (ValueOf(line) != "" && Trim(continuation) != "")
  {
    hide HeaderOf, ValueOf, Trim, ColonAt, Rejoined;
    RejoiningMends(r, line, continuation);
    GluedIsJoined(ValueOf(line), Trim(continuation));
    HeaderLinesStand(line);
    if SlotOf(line).Some? && SlotOf(line).value !in r.fields {
      var slot := SlotOf(line).value;
      assert Stepped(Stepped(r, line), continuation).fields[slot] == ValueOf(line) + " " + Trim(continuation);
      assert Mended(Stepped(r, line), continuation).fields[slot] == Glued(ValueOf(line), Trim(continuation));
    }
  }

  lemma {:induction false} ReadPrefix(xs: seq<string>, ys: seq<string>, n: nat)
    requires n <= |xs|
    ensures Read(xs + ys, n) == Read(xs, n)
  {
    hide Stepped;
    if n > 0 {
      ReadPrefix(xs, ys, n - 1);
    }
  }

  lemma ReadLast(xs: seq<string>, x: string)
    ensures Read(xs + [x], |xs| + 1) == Stepped(Read(xs, |xs|), x)
  {
    hide Stepped;
    ReadPrefix(xs, [x], |xs|);
  }

  lemma MendedApart(r: Reading, line: string)
    ensures Mended(r, line).(folded := false) == Mended(r.(folded := false), line).(folded := false)
    ensures !Continues(line) ==> Stepped(r, line).folded == r.folded && Mended(r, line) == Stepped(r, line)
  {
    hide HeaderOf, ValueOf, Trim;
  }

  /** One continuation put back on the last line read. */
  lemma ContinuationUnfolds(r: Reading, before: seq<string>, line: string)
    requires before != [] && IsHeaderLine(before[|before| - 1]) && Continues(line)
    requires Read(before, |before|) == r.(folded := false)
    ensures var u := before[..|before| - 1] + [Rejoined(before[|before| - 1], line)];
            && Read(u, |u|) == Mended(r, line).(folded := false)
            && IsHeaderLine(u[|u| - 1])
  {
    hide Stepped, Mended, IsHeaderLine, Continues, Rejoined, Trim;
    var head, x := before[..|before| - 1], before[|before| - 1];
    assert before == head + [x];
    ReadLast(head, x);
    ReadLast(head, Rejoined(x, line));
    RejoiningMends(Read(head, |head|), x, line);
    RejoinedHeader(x, line);
    HeaderLinesStand(x);
    MendedApart(Read(head, |head|), x);
    MendedApart(r, line);
  }

  /** Reading the unfolded lines is reading the lines and gluing their continuations. */
  lemma {:induction false} UnfoldedReads(lines: seq<string>, n: nat)
    requires n <= |lines| && WellFolded(lines)
    ensures var u := Unfolded(lines, n); Read(u, |u|) == MendedRead(lines, n).(folded := false)
    ensures n > 0 && (Continues(lines[n - 1]) || IsHeaderLine(lines[n - 1])) ==>
              Unfolded(lines, n) != [] && IsHeaderLine(Unfolded(lines, n)[|Unfolded(lines, n)| - 1])
  {
    hide Stepped, Mended, IsHeaderLine, Continues, Rejoined, Trim;
    if n > 0 {
      UnfoldedReads(lines, n - 1);
      var r, before, line := MendedRead(lines, n - 1), Unfolded(lines, n - 1), lines[n - 1];
      if Continues(line) {
        ContinuationUnfolds(r, before, line);
      } else {
        ReadLast(before, line);
        MendedApart(r, line);
        MendedApart(Read(before, |before|), line);
      }
    }
  }

  // ---- when gluing and joining agree ----

  /** If line j continues the header at line i, neither that header's value nor the continuation is
      blank. */
  predicate Sound(lines: seq<string>, i: nat, j: nat)
    requires i < j < |lines|
  {
    Unbroken(lines, i, j + 1) ==> ValueOf(lines[i]) != "" && Trim(lines[j]) != ""
  }

  /** The first occurrence of the header is not continued, or its value is not blank and no
      continuation of it is. */
  predicate Intact(lines: seq<string>, n: nat, s: Slot)
    requires n <= |lines|
  {
    match First(lines, n, s)
    case None => true
    case Some(i) => forall j :: i < j < n ==> Sound(lines, i, j)
  }

  /** The two readings differ at most in their values, and a glued value is the joined one exactly
      when its header is intact; otherwise it is shorter. */
  predicate Agrees(r: Reading, m: Reading, lines: seq<string>, n: nat, s: Slot)
    requires n <= |lines|
  {
    && (s in m.fields <==> s in r.fields)
    && (s in r.fields ==> && |m.fields[s]| <= |r.fields[s]|
                          && (m.fields[s] == r.fields[s] <==> |m.fields[s]| == |r.fields[s]|)
                          && (m.fields[s] == r.fields[s] <==> Intact(lines, n, s)))
  }

  predicate AlikeButValues(r: Reading, m: Reading) {
    m.(fields := r.fields) == r && m.fields.Keys == r.fields.Keys
  }

  lemma {:induction false} JoinedIsBlank(lines: seq<string>, i: nat, n: nat)
    requires i < n <= |lines|
    ensures |Joined(lines, i, n)| >= |ValueOf(lines[i])|
    ensures n == i + 1 ==> Joined(lines, i, n) == ValueOf(lines[i])
  {
    hide ValueOf, Trim;
    if n > i + 1 {
      JoinedIsBlank(lines, i, n - 1);
    }
  }

  /** One more line, when it continues the header: how intactness goes on. */
  lemma IntactOnce(lines: seq<string>, n: nat, s: Slot)
    requires n < |lines|
    ensures var first := First(lines, n, s);
            if Continues(lines[n]) && first.Some? && Unbroken(lines, first.value, n)
            then Intact(lines, n + 1, s) <==> Intact(lines, n, s) && ValueOf(lines[first.value]) != "" && Trim(lines[n]) != ""
            else Intact(lines, n + 1, s) <==> Intact(lines, n, s)
  {
    hide HeaderOf, ValueOf, Trim;
    ContinuesNoHeader(lines[n]);
    var first := First(lines, n, s);
    if first.Some? {
      var i := first.value;
      assert First(lines, n + 1, s) == first;
      assert Unbroken(lines, i, n + 1) <==> Unbroken(lines, i, n) && Continues(lines[n]);
      assert n > i && (Intact(lines, n + 1, s) ==> Sound(lines, i, n));
    }
  }

  /** One more continuation of an open header. */
  lemma AgreesOverContinuation(r: Reading, m: Reading, lines: seq<string>, n: nat, s: Slot)
    requires n < |lines| && Continues(lines[n]) && AlikeButValues(r, m) && Agrees(r, m, lines, n, s)
    requires FieldMeans(r, lines, n, s) && OpenMeans(r, lines, n, s)
    ensures Agrees(Stepped(r, lines[n]), Mended(m, lines[n]), lines, n + 1, s)
  {
    hide HeaderOf, ValueOf, Trim, Continues, Joined, Intact, First, Glued, Unbroken;
    IntactOnce(lines, n, s);
    if r.last == Some(s) && s in r.fields {
      var i, p := First(lines, n, s).value, Trim(lines[n]);
      var v, u := r.fields[s], m.fields[s];
      JoinedIsBlank(lines, i, n);
      GluedIsJoined(u, p);
      GluedLength(u, v, p);
      if Intact(lines, n, s) {
        OpenIsBlank(lines, n, s);
      }
    }
  }

  lemma GluedLength(u: string, v: string, p: string)
    requires |u| <= |v| && (u == v <==> |u| == |v|)
    ensures |Glued(u, p)| <= |v + " " + p|
    ensures Glued(u, p) == v + " " + p <==> |Glued(u, p)| == |v + " " + p|
    ensures Glued(u, p) == v + " " + p <==> u == v && v != "" && p != ""
  {
    GluedIsJoined(u, p);
    GluedIsJoined(v, p);
    if |u| < |v| {
      assert |Glued(u, p)| <= |u| + 1 + |p| < |v + " " + p|;
    }
  }

  /** An intact open header is blank exactly when its own line is. */
  lemma OpenIsBlank(lines: seq<string>, n: nat, s: Slot)
    requires n <= |lines| && First(lines, n, s).Some? && Unbroken(lines, First(lines, n, s).value, n) && Intact(lines, n, s)
    ensures var i := First(lines, n, s).value; Joined(lines, i, n) == "" <==> ValueOf(lines[i]) == ""
  {
    hide HeaderOf, ValueOf, Trim;
    var i := First(lines, n, s).value;
    JoinedIsBlank(lines, i, n);
    if n > i + 1 {
      assert Sound(lines, i, n - 1) && Unbroken(lines, i, (n - 1) + 1);
    }
  }

  /** A header line keeps the fields there are, and adds at most its own. */
  lemma FieldOfHeader(r: Reading, line: string, s: Slot)
    requires !Continues(line)
    ensures Mended(r, line) == Stepped(r, line)
    ensures s in Stepped(r, line).fields <==> s in r.fields || SlotOf(line) == Some(s)
    ensures s in Stepped(r, line).fields ==> Stepped(r, line).fields[s] == if s in r.fields then r.fields[s] else ValueOf(line)
  {
    hide HeaderOf, ValueOf, Trim;
  }

  lemma AgreesOverHeader(r: Reading, m: Reading, lines: seq<string>, n: nat, s: Slot)
    requires n < |lines| && !Continues(lines[n]) && AlikeButValues(r, m) && Agrees(r, m, lines, n, s)
    requires FieldMeans(r, lines, n, s)
    ensures Agrees(Stepped(r, lines[n]), Mended(m, lines[n]), lines, n + 1, s)
  {
    hide HeaderOf, ValueOf, Continues, Joined, Intact, First, Stepped, Mended;
    FieldOfHeader(r, lines[n], s);
    FieldOfHeader(m, lines[n], s);
    IntactOnce(lines, n, s);
    if First(lines, n, s).None? {
      IntactAtFirst(lines, n, s);
    }
  }

  lemma IntactAtFirst(lines: seq<string>, n: nat, s: Slot)
    requires n < |lines| && First(lines, n, s).None?
    ensures Intact(lines, n + 1, s)
  {
    hide HeaderOf;
  }

  lemma AlikeOnce(r: Reading, m: Reading, line: string)
    requires AlikeButValues(r, m)
    ensures AlikeButValues(Stepped(r, line), Mended(m, line))
  {
    hide HeaderOf, ValueOf, Trim;
  }

  lemma {:induction false} ReadingsAgree(lines: seq<string>, n: nat)
    requires n <= |lines|
    ensures AlikeButValues(Read(lines, n), MendedRead(lines, n))
    ensures forall s :: Agrees(Read(lines, n), MendedRead(lines, n), lines, n, s)
  {
    hide Stepped, Mended, AlikeButValues, Agrees, FieldMeans, OpenMeans, FoldedMeans, DuplicateMeans, CredentialMeans, Continues;
    if n == 0 {
      NothingDiffers(lines);
    } else {
      var r, m := Read(lines, n - 1), MendedRead(lines, n - 1);
      ReadingsAgree(lines, n - 1);
      ReadMeans(lines, n - 1);
      AlikeOnce(r, m, lines[n - 1]);
      forall s ensures Agrees(Read(lines, n), MendedRead(lines, n), lines, n, s) {
        if Continues(lines[n - 1]) {
          AgreesOverContinuation(r, m, lines, n - 1, s);
        } else {
          AgreesOverHeader(r, m, lines, n - 1, s);
        }
      }
    }
  }

  lemma NothingDiffers(lines: seq<string>)
    ensures AlikeButValues(NOTHING_READ, NOTHING_READ)
    ensures forall s :: Agrees(NOTHING_READ, NOTHING_READ, lines, 0, s)
  {
  }

  lemma {:induction false} UnfoldedHasNoGap(lines: seq<string>, n: nat)
    requires n <= |lines| && forall j :: 0 <= j < n ==> lines[j] != ""
    ensures forall i :: 0 <= i < |Unfolded(lines, n)| ==> Unfolded(lines, n)[i] != ""
  {
    hide Continues, Trim, TrimEnd;
    if n > 0 {
      UnfoldedHasNoGap(lines, n - 1);
    }
  }

  lemma {:induction false} NoGapNoEnd(lines: seq<string>, i: nat)
    requires i <= |lines| && forall j :: 0 <= j < |lines| ==> lines[j] != ""
    ensures HeaderEnd(lines, i) == |lines|
    decreases |lines| - i
  {
    if i < |lines| {
      NoGapNoEnd(lines, i + 1);
    }
  }

  /** Unfolding header lines: the reading of the unfolded lines is the glued one. */
  lemma HeadUnfolds(head: seq<string>)
    requires WellFolded(head) && forall j :: 0 <= j < |head| ==> head[j] != ""
    ensures Parsed(head) == Read(head, |head|)
    ensures var u := Unfolded(head, |head|); Parsed(u) == MendedRead(head, |head|).(folded := false)
    ensures forall i :: 0 <= i < |Unfolded(head, |head|)| ==> Unfolded(head, |head|)[i] != ""
  {
    hide Read, MendedRead, Unfolded, WellFolded;
    NoGapNoEnd(head, 0);
    UnfoldedReads(head, |head|);
    UnfoldedHasNoGap(head, |head|);
    NoGapNoEnd(Unfolded(head, |head|), 0);
  }

  lemma {:induction false} EndsAtTheGap(head: seq<string>, body: seq<string>, i: nat)
    requires i <= |head| && forall j :: 0 <= j < |head| ==> head[j] != ""
    ensures HeaderEnd(head + [""] + body, i) == |head|
    decreases |head| - i
  {
    if i < |head| {
      EndsAtTheGap(head, body, i + 1);
    }
  }

  /** Whatever follows the empty line is not read. */
  lemma BodyIsIgnored(head: seq<string>, body: seq<string>)
    requires forall j :: 0 <= j < |head| ==> head[j] != ""
    ensures Parsed(head + [""] + body) == Parsed(head)
  {
    hide Read;
    EndsAtTheGap(head, body, 0);
    NoGapNoEnd(head, 0);
    assert head + [""] + body == head + ([""] + body);
    ReadPrefix(head, [""] + body, |head|);
  }

  lemma RestIsIgnored(head: seq<string>, rest: seq<string>)
    requires (forall j :: 0 <= j < |head| ==> head[j] != "") && (rest == [] || rest[0] == "")
    ensures Parsed(head + rest) == Parsed(head)
  {
    hide Read, HeaderEnd;
    if rest == [] {
      assert head + rest == head;
    } else {
      assert head + rest == head + [""] + rest[1..];
      BodyIsIgnored(head, rest[1..]);
    }
  }

  /** A whole message, its header lines unfolded and the empty line and body as they were. */
  function UnfoldedMessage(lines: seq<string>): seq<string> {
    var end := HeaderEnd(lines, 0);
    Unfolded(lines[..end], end) + lines[end..]
  }

  /** The header lines of a message. */
  function HeadOf(lines: seq<string>): seq<string> {
    lines[..HeaderEnd(lines, 0)]
  }

  lemma MessageUnfolds(lines: seq<string>)
    requires WellFolded(HeadOf(lines))
    ensures var head := HeadOf(lines);
            Parsed(lines) == Read(head, |head|) && Parsed(UnfoldedMessage(lines)) == MendedRead(head, |head|).(folded := false)
  {
    hide Read, MendedRead, Unfolded, WellFolded;
    var end := HeaderEnd(lines, 0);
    var head, rest := lines[..end], lines[end..];
    assert lines == head + rest;
    HeadUnfolds(head);
    RestIsIgnored(head, rest);
    RestIsIgnored(Unfolded(head, end), rest);
  }

  /** For every message whose continuations each follow a header line or another one, with or
      without a body: unfolding leaves no fold to note, changes neither which fields there are nor
      the duplicate, and keeps a field exactly when its header is intact. So it changes only the
      flag exactly when every kept first occurrence that is continued has a value that is not
      blank, and no blank continuation. */
  lemma UnfoldingChangesOnlyTheFlag(lines: seq<string>)
    requires WellFolded(HeadOf(lines))
    ensures var u, r, head := Parsed(UnfoldedMessage(lines)), Parsed(lines), HeadOf(lines);
            && !u.folded && u.duplicate == r.duplicate && u.fields.Keys == r.fields.Keys
            && (forall s :: s in r.fields ==> (u.fields[s] == r.fields[s] <==> Intact(head, |head|, s)))
            && (u == r.(folded := false) <==> forall s :: Intact(head, |head|, s))
  {
    hide Read, MendedRead, UnfoldedMessage, WellFolded, Intact, First;
    var head := HeadOf(lines);
    MessageUnfolds(lines);
    ReadingsAgree(head, |head|);
    var u, r := Parsed(UnfoldedMessage(lines)), Parsed(lines);
    forall s ensures s !in r.fields ==> Intact(head, |head|, s) {
      MissingIsIntact(head, s);
    }
    forall s ensures s in r.fields ==> s in u.fields && (u.fields[s] == r.fields[s] <==> Intact(head, |head|, s)) {
      assert Agrees(r, MendedRead(head, |head|), head, |head|, s);
    }
  }

  lemma MissingIsIntact(head: seq<string>, s: Slot)
    ensures s !in Read(head, |head|).fields ==> Intact(head, |head|, s)
  {
    hide Read, First;
    ReadMeans(head, |head|);
    assert FieldMeans(Read(head, |head|), head, |head|, s);
  }

  // ---- messages the documents describe otherwise ----

  lemma {:induction false} FirstColon(s: string, i: nat, c: nat)
    requires i <= c < |s| && s[c] == ':' && forall j :: i <= j < c ==> s[j] != ':'
    ensures ColonAt(s, i) == Some(c)
    decreases c - i
  {
    if i < c {
      FirstColon(s, i + 1, c);
    }
  }

  lemma FromLine()
    ensures HeaderOf("f:a") == Some(Kind(From, "From")) && ValueOf("f:a") == "a"
  {
    hide ColonAt;
    FirstColon("f:a", 0, 1);
    TrimKeeps("f");
    TrimKeeps("a");
    assert "f:a"[..1] == "f" && "f:a"[2..] == "a";
  }

  lemma TrimOfContinuation()
    ensures Trim(" b") == "b"
  {
    assert " b"[1..] == "b";
    TrimKeeps("b");
  }

  /** A continuation is part of its header's value. */
  lemma FoldedLineIsJoined() returns (lines: seq<string>)
    ensures |lines| == 2 && Continues(lines[1]) && From in Parsed(lines).fields
    ensures Parsed(lines).fields[From] == "a b"
  {
    hide HeaderOf, ValueOf, Trim, ColonAt;
    lines := ["f:a", " b"];
    FromLine();
    TrimOfContinuation();
    NoGapNoEnd(lines, 0);
    assert Read(lines, 1) == Stepped(NOTHING_READ, lines[0]);
    assert Read(lines, 2) == Stepped(Read(lines, 1), lines[1]);
  }

  lemma Unfolds(line: string, continuation: string)
    requires IsHeaderLine(line) && Continues(continuation)
    ensures var lines := [line, continuation];
            HeadOf(lines) == lines && WellFolded(lines) && UnfoldedMessage(lines) == [Rejoined(line, continuation)]
  {
    hide IsHeaderLine, Rejoined, Trim, ColonAt;
    var lines := [line, continuation];
    HeaderLinesStand(line);
    HeaderLineIsALine(line);
    NoGapNoEnd(lines, 0);
    assert lines[..2] == lines && Unfolded(lines, 0) == [];
    assert Unfolded(lines, 1) == [] + [line] == [line];
    assert [line][..0] + [Rejoined(line, continuation)] + [] == [Rejoined(line, continuation)];
  }

  lemma HeaderLineIsALine(line: string)
    requires IsHeaderLine(line)
    ensures line != ""
  {
  }

  lemma FirstContinued(line: string, continuation: string, slot: Slot)
    requires IsHeaderLine(line) && SlotOf(line) == Some(slot) && Continues(continuation)
    ensures var lines := [line, continuation];
            && slot in Parsed(lines).fields && Parsed(lines).fields[slot] == ValueOf(line) + " " + Trim(continuation)
            && slot in Parsed(UnfoldedMessage(lines)).fields
            && Parsed(UnfoldedMessage(lines)).fields[slot] == Glued(ValueOf(line), Trim(continuation))
  {
    hide HeaderOf, ValueOf, Trim, ColonAt, Rejoined, UnfoldedMessage, WellFolded, Unfolded;
    var lines := [line, continuation];
    HeaderLinesStand(line);
    Unfolds(line, continuation);
    MessageUnfolds(lines);
    assert Read(lines, 1) == Stepped(NOTHING_READ, line) && Read(lines, 2) == Stepped(Read(lines, 1), continuation);
    assert MendedRead(lines, 1) == Mended(NOTHING_READ, line);
    assert MendedRead(lines, 2) == Mended(MendedRead(lines, 1), continuation);
  }

  /** A header folded right after its colon is read with a space before its value, and one with a
      blank continuation with a space behind it; unfolded, both are read without. */
  lemma BlankSideLeavesASpace()
    ensures var early, late := ["f:", " b"], ["f:a", " "];
            && From in Parsed(early).fields && From in Parsed(UnfoldedMessage(early)).fields
            && Parsed(early).fields[From] == " b" && Parsed(UnfoldedMessage(early)).fields[From] == "b"
            && From in Parsed(late).fields && From in Parsed(UnfoldedMessage(late)).fields
            && Parsed(late).fields[From] == "a " && Parsed(UnfoldedMessage(late)).fields[From] == "a"
  {
    hide HeaderOf, ValueOf, Trim, ColonAt, Parsed, UnfoldedMessage;
    FromLine();
    BlankFromLine();
    TrimOfContinuation();
    FirstContinued("f:", " b", From);
    FirstContinued("f:a", " ", From);
    assert "" + " " + "b" == " b" && "a" + " " + "" == "a ";
  }

  lemma BlankFromLine()
    ensures IsHeaderLine("f:") && SlotOf("f:") == Some(From) && ValueOf("f:") == ""
    ensures IsHeaderLine("f:a") && Trim(" ") == ""
  {
    hide ColonAt;
    FirstColon("f:", 0, 1);
    FirstColon("f:a", 0, 1);
    TrimKeeps("f");
    TrimKeeps("");
    assert "f:"[..1] == "f" && "f:"[2..] == "" && " "[1..] == "";
  }

  lemma RepeatsUnseen(first: string, second: string, third: string)
    requires HeaderOf(first) == Some(Kind(Credential, "Authorization"))
    requires HeaderOf(second) == Some(Kind(Credential, "Proxy-Authorization")) == HeaderOf(third)
    ensures Parsed([first, second, third]).duplicate == None
  {
    hide HeaderOf, Trim;
    var lines := [first, second, third];
    HeadersAreLines(first);
    HeadersAreLines(second);
    HeadersAreLines(third);
    NoGapNoEnd(lines, 0);
    assert Read(lines, 1) == Stepped(NOTHING_READ, first);
    assert Read(lines, 2) == Stepped(Read(lines, 1), second);
    assert Read(lines, 3) == Stepped(Read(lines, 2), third);
  }

  lemma AuthorizationLine(value: string)
    requires value != ""
    ensures HeaderOf("Authorization:" + value) == Some(Kind(Credential, "Authorization"))
  {
    var line := "Authorization:" + value;
    assert line[..13] == "Authorization" && line[13] == ':';
    FirstColon(line, 0, 13);
    TrimKeeps("Authorization");
  }

  lemma ProxyAuthorizationLine(value: string)
    requires value != ""
    ensures HeaderOf("Proxy-Authorization:" + value) == Some(Kind(Credential, "Proxy-Authorization"))
  {
    var line := "Proxy-Authorization:" + value;
    assert line[..19] == "Proxy-Authorization" && line[19] == ':';
    FirstColon(line, 0, 19);
    TrimKeeps("Proxy-Authorization");
  }

  /** After an Authorization header, two Proxy-Authorization headers are no duplicate. */
  lemma RepeatedCredentialIsMissed() returns (lines: seq<string>)
    ensures lines == ["Authorization:a", "Proxy-Authorization:b", "Proxy-Authorization:c"]
    ensures HeaderOf(lines[1]).Some? && HeaderOf(lines[1]) == HeaderOf(lines[2])
    ensures Parsed(lines).duplicate == None
  {
    hide HeaderOf, Parsed, KindOf;
    lines := ["Authorization:a", "Proxy-Authorization:b", "Proxy-Authorization:c"];
    AuthorizationLine("a");
    ProxyAuthorizationLine("b");
    ProxyAuthorizationLine("c");
    assert "Authorization:" + "a" == lines[0] && "Proxy-Authorization:" + "b" == lines[1] && "Proxy-Authorization:" + "c" == lines[2];
    RepeatsUnseen(lines[0], lines[1], lines[2]);
  }

  lemma HeadersAreLines(line: string)
    requires HeaderOf(line).Some?
    ensures line != "" && !Continues(line)
  {
  }
}
