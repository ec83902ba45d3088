/** Country resolution by longest calling-code prefix: the binary search per length, and the
    linear scan it must agree with, over any strictly sorted table of codes of one to four
    digits. */
module Countries {
  import opened Numerics

  datatype Entry = Entry(code: string, iso: string, index: nat)

  const LONGEST: nat := 4

  predicate Less(a: string, b: string) {
    if b == "" then false
    else if a == "" then true
    else if a[0] != b[0] then a[0] < b[0]
    else Less(a[1..], b[1..])
  }

  /** Codes strictly ascend and have one to four digits. */
  ghost predicate ValidTable(table: seq<Entry>) {
    && (forall i :: 0 <= i < |table| ==> 1 <= |table[i].code| <= LONGEST)
    && (forall i, j :: 0 <= i < j < |table| ==> Less(table[i].code, table[j].code))
  }

  lemma {:induction false} LessIsTotal(a: string, b: string)
    ensures Less(a, b) || a == b || Less(b, a)
    ensures !(Less(a, b) && (a == b || Less(b, a)))
  {
    if a != "" && b != "" && a[0] == b[0] {
      LessIsTotal(a[1..], b[1..]);
      assert a == [a[0]] + a[1..] && b == [b[0]] + b[1..];
    }
  }

  lemma {:induction false} LessIsTransitive(a: string, b: string, c: string)
    requires Less(a, b) && Less(b, c)
    ensures Less(a, c)
  {
    if a != "" && b != "" && c != "" && a[0] == b[0] == c[0] {
      LessIsTransitive(a[1..], b[1..], c[1..]);
    }
  }

  /** Entry i is the longest of the codes that begin the digits. */
  ghost predicate IsLongest(table: seq<Entry>, digits: string, i: nat) {
    && i < |table| && table[i].code <= digits
    && forall j :: 0 <= j < |table| && table[j].code <= digits ==> |table[j].code| <= |table[i].code|
  }

  /** What the linear scan holds after n entries. */
  function BestOf(table: seq<Entry>, digits: string, n: nat): (best: Option<nat>)
    requires n <= |table|
    ensures best.Some? ==> best.value < n && table[best.value].code <= digits
  {
    if n == 0 then None
    else
      var best := BestOf(table, digits, n - 1);
      if table[n - 1].code <= digits && (best.None? || |table[n - 1].code| > |table[best.value].code|) then Some(n - 1)
      else best
  }

  lemma {:induction false} BestOfIsBest(table: seq<Entry>, digits: string, n: nat)
    requires n <= |table|
    ensures var best := BestOf(table, digits, n);
            forall j :: 0 <= j < n && table[j].code <= digits ==> best.Some? && |table[j].code| <= |table[best.value].code|
  {
    if n > 0 {
      BestOfIsBest(table, digits, n - 1);
    }
  }

  /** The country of a digit string, if any code begins it. */
  function Country(table: seq<Entry>, digits: string): Option<Entry> {
    match BestOf(table, digits, |table|)
    case None => None
    case Some(i) => Some(table[i])
  }

  lemma CodesAreDistinct(table: seq<Entry>, i: nat, j: nat)
    requires ValidTable(table) && i < |table| && j < |table| && table[i].code == table[j].code
    ensures i == j
  {
    LessIsTotal(table[i].code, table[j].code);
  }

  /** The answer is the longest match, and the only one. */
  lemma CountryIsTheLongestMatch(table: seq<Entry>, digits: string)
    requires ValidTable(table)
    ensures Country(table, digits).None? <==> forall i :: 0 <= i < |table| ==> !(table[i].code <= digits)
    ensures forall i: nat :: IsLongest(table, digits, i) ==> Country(table, digits) == Some(table[i])
    ensures Country(table, digits).Some? ==> exists i: nat :: IsLongest(table, digits, i)
  {
    BestOfIsBest(table, digits, |table|);
    var best := BestOf(table, digits, |table|);
    if best.Some? {
      assert IsLongest(table, digits, best.value);
      forall i: nat | IsLongest(table, digits, i) ensures i == best.value {
        assert table[i].code == digits[..|table[i].code|] == table[best.value].code;
        CodesAreDistinct(table, i, best.value);
      }
    }
  }

  lemma PrefixOfFour(code: string, digits: string)
    requires |code| <= LONGEST
    ensures code <= digits <==> code <= digits[..if |digits| < LONGEST then |digits| else LONGEST]
  {
    var head := digits[..if |digits| < LONGEST then |digits| else LONGEST];
    if code <= digits {
      assert code == digits[..|code|] == head[..|code|];
    }
  }

  /** Only the first four digits matter. */
  lemma FourDigitsDecide(table: seq<Entry>, a: string, b: string)
    requires ValidTable(table)
    requires a[..if |a| < LONGEST then |a| else LONGEST] == b[..if |b| < LONGEST then |b| else LONGEST]
    ensures Country(table, a) == Country(table, b)
  {
    forall i | 0 <= i < |table| ensures table[i].code <= a <==> table[i].code <= b {
      PrefixOfFour(table[i].code, a);
      PrefixOfFour(table[i].code, b);
    }
    CountryIsTheLongestMatch(table, a);
    CountryIsTheLongestMatch(table, b);
    if Country(table, a).Some? {
      var i: nat :| IsLongest(table, a, i);
      assert IsLongest(table, b, i);
    }
  }

  /** Three-way comparison, character by character. */
  method Compare(a: string, b: string) returns (less: bool, equal: bool)
    ensures less <==> Less(a, b)
    ensures equal <==> a == b
  {
    var i := 0;
    while i < |a| && i < |b| && a[i] == b[i]
      invariant 0 <= i <= |a| && i <= |b| && a[..i] == b[..i]
      invariant Less(a, b) == Less(a[i..], b[i..])
    {
      assert a[i..][1..] == a[i + 1..] && b[i..][1..] == b[i + 1..];
      i := i + 1;
    }
    equal := i == |a| && i == |b|;
    less := i < |b| && (i == |a| || a[i] < b[i]);
    if equal {
      assert a == a[..i] && b == b[..i];
    }
  }

  /** Finds a code in the sorted table. */
  method Search(table: seq<Entry>, key: string) returns (at: Option<nat>)
    requires ValidTable(table)
    ensures at.Some? ==> at.value < |table| && table[at.value].code == key
    ensures at.None? ==> forall i :: 0 <= i < |table| ==> table[i].code != key
  {
    var lo, hi := 0, |table|;
    while lo < hi
      invariant 0 <= lo <= hi <= |table|
      invariant forall i :: 0 <= i < lo ==> Less(table[i].code, key)
      invariant forall i :: hi <= i < |table| ==> Less(key, table[i].code)
    {
      var mid := lo + (hi - lo) / 2;
      var less, equal := Compare(table[mid].code, key);
      if equal {
        return Some(mid);
      }
      LessIsTotal(table[mid].code, key);
      if less {
        forall i | 0 <= i < mid ensures Less(table[i].code, key) {
          LessIsTransitive(table[i].code, table[mid].code, key);
        }
        lo := mid + 1;
      } else {
        forall i | mid < i < |table| ensures Less(key, table[i].code) {
          LessIsTransitive(key, table[mid].code, table[i].code);
        }
        hi := mid;
      }
    }
    forall i | 0 <= i < |table| ensures table[i].code != key {
      LessIsTotal(table[i].code, key);
    }
    return None;
  }

  /** Tries the longest possible prefix first and stops at the first hit. */
  method Resolve(table: seq<Entry>, digits: string) returns (country: Option<Entry>)
    requires ValidTable(table)
    ensures country == Country(table, digits)
  {
    CountryIsTheLongestMatch(table, digits);
    var len := LONGEST;
    while len > 0
      invariant 0 <= len <= LONGEST
      invariant forall i :: 0 <= i < |table| && table[i].code <= digits ==> |table[i].code| <= len
    {
      if len <= |digits| {
        var key := digits[..len];
        var at := Search(table, key);
        if at.Some? {
          assert IsLongest(table, digits, at.value);
          return Some(table[at.value]);
        }
        forall i | 0 <= i < |table| && table[i].code <= digits ensures |table[i].code| <= len - 1 {
          assert table[i].code == digits[..|table[i].code|];
        }
      }
      len := len - 1;
    }
    return None;
  }

  /** Scans the whole table for the longest code that begins the digits. */
  method ResolveLinear(table: seq<Entry>, digits: string) returns (country: Option<Entry>)
    requires ValidTable(table)
    ensures country == Country(table, digits)
  {
    var best: Option<nat> := None;
    for i := 0 to |table|
      invariant best == BestOf(table, digits, i)
    {
      if table[i].code <= digits && (best.None? || |table[i].code| > |table[best.value].code|) {
        best := Some(i);
      }
    }
    return match best case None => None case Some(i) => Some(table[i]);
  }
}
