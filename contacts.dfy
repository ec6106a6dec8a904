/**
 * Contact suggestions for the recipient field: a directory contact, the
 * test that decides whether it answers a query, and the search that
 * collects matching directory rows (one contact per normalized number,
 * preferring mobile numbers) and ranks them.
 */
module Contacts {
  import opened Wrappers
  import opened Text
  import opened Sorting

  /** `Phone.TYPE_MOBILE`. */
  const TYPE_MOBILE: int := 2

  datatype Contact = Contact(
    id: string,
    name: string,
    number: string,
    displayString: string,
    normalizedNumber: string)

  /** `normalizeNumber(number) ?: number`; the normalizer is the platform's and is a parameter. */
  function NormalizedOrRaw(normalize: string -> Option<string>, number: string): (r: string)
    ensures normalize(number).Some? ==> r == normalize(number).value
    ensures normalize(number).None? ==> r == number
  {
    normalize(number).GetOr(number)
  }

  /** `Contact(id, name, number)` with its default display string and derived normalized number. */
  function NewContact(id: string, name: string, number: string, normalize: string -> Option<string>): (c: Contact)
    ensures c.id == id && c.name == name && c.number == number
    ensures c.displayString == name + " (" + number + ")"
    ensures c.normalizedNumber == NormalizedOrRaw(normalize, number)
  {
    Contact(id, name, number, name + " (" + number + ")", NormalizedOrRaw(normalize, number))
  }

  /** Some token starts with `p` once lower-cased. */
  predicate AnyTokenStartsWith(tokens: seq<string>, p: string) {
    exists k :: 0 <= k < |tokens| && StartsWith(Lower(tokens[k]), p)
  }

  /**
   * `matches(query)`: the number or the normalized number contains the query
   * as typed, or the lower-cased name contains the lower-cased query, or a
   * space-separated part of the name starts with it.
   */
  predicate Matches(c: Contact, query: string): (r: bool)
    ensures Contains(c.number, query) || Contains(c.normalizedNumber, query) || ContainsIgnoreCase(c.name, query) ==> r
  {
    || Contains(c.number, query)
    || Contains(c.normalizedNumber, query)
    || Contains(Lower(c.name), Lower(query))
    || AnyTokenStartsWith(Split(c.name, ' '), Lower(query))
  }

  /**
   * The name-token clause never decides the outcome: a token of the name
   * that starts with the query already puts the query inside the name.
   */
  lemma MatchesWithoutTokens(c: Contact, query: string)
    ensures Matches(c, query) <==>
      Contains(c.number, query) || Contains(c.normalizedNumber, query) || ContainsIgnoreCase(c.name, query)
  {
    if AnyTokenStartsWith(Split(c.name, ' '), Lower(query)) {
      var tokens := Split(c.name, ' ');
      var k :| 0 <= k < |tokens| && StartsWith(Lower(tokens[k]), Lower(query));
      SplitTokensOccur(c.name, ' ', k);
      LowerKeepsContains(c.name, tokens[k]);
      ContainsThroughPrefix(Lower(c.name), Lower(tokens[k]), Lower(query));
    }
  }

  /** The display string shows the name and, in parentheses, the number. */
  lemma DisplayStringShowsNameAndNumber(id: string, name: string, number: string, normalize: string -> Option<string>)
    ensures var d := NewContact(id, name, number, normalize).displayString;
      StartsWith(d, name) && d[|name|..] == " (" + number + ")"
  {
    var d := NewContact(id, name, number, normalize).displayString;
    assert d[..|name|] == name;
  }

  // ---------------------------------------------------------------------
  // The directory cursor and the insertion-ordered map it fills
  // ---------------------------------------------------------------------

  /** One row of the phone-number directory query; name and number may be null. */
  datatype DirectoryRow = DirectoryRow(id: string, name: Option<string>, number: Option<string>, phoneType: int)

  /** A `LinkedHashMap` from normalized number to contact: the keys in first-insertion order. */
  datatype LinkedMap = LinkedMap(keys: seq<string>, entries: map<string, Contact>)

  ghost predicate Valid(m: LinkedMap) {
    && (forall i, j :: 0 <= i < j < |m.keys| ==> m.keys[i] != m.keys[j])
    && (forall k :: k in m.entries <==> k in m.keys)
  }

  const EmptyMap := LinkedMap([], map[])

  /** `map[k] = v`: a new key goes to the end of the order, a present key keeps its place. */
  function Put(m: LinkedMap, k: string, v: Contact): (r: LinkedMap)
    ensures r.entries == m.entries[k := v]
    ensures k in m.entries ==> r.keys == m.keys
    ensures k !in m.entries ==> r.keys == m.keys + [k]
    ensures Valid(m) ==> Valid(r)
  {
    if k in m.entries then LinkedMap(m.keys, m.entries[k := v])
    else LinkedMap(m.keys + [k], m.entries[k := v])
  }

  /** `map.values`, in key order. */
  function Values(m: LinkedMap): (r: seq<Contact>)
    requires Valid(m)
    ensures |r| == |m.keys|
    ensures forall i :: 0 <= i < |r| ==> r[i] == m.entries[m.keys[i]]
  {
    seq(|m.keys|, i requires 0 <= i < |m.keys| => m.entries[m.keys[i]])
  }

  /** The contact a row stands for, when it has both a name and a number. */
  function RowContact(row: DirectoryRow, normalize: string -> Option<string>): Option<Contact> {
    if row.name.Some? && row.number.Some? then
      Some(NewContact(row.id, row.name.value, row.number.value, normalize))
    else None
  }

  /** One pass of the cursor loop: skip null names or numbers; a present key yields only to a matching mobile row. */
  function Step(m: LinkedMap, row: DirectoryRow, query: string, normalize: string -> Option<string>): (r: LinkedMap)
    ensures Valid(m) ==> Valid(r)
    ensures m.entries.Keys <= r.entries.Keys
    ensures RowContact(row, normalize).None? ==> r == m
    ensures forall k :: k in m.entries && (RowContact(row, normalize).None? || k != RowContact(row, normalize).value.normalizedNumber)
              ==> r.entries[k] == m.entries[k]
    ensures forall k :: k in r.entries && k !in m.entries ==> Hits(row, k, query, normalize)
    ensures RowContact(row, normalize).Some? ==>
      var c := RowContact(row, normalize).value;
      c.normalizedNumber in m.entries && row.phoneType != TYPE_MOBILE ==> r == m
  {
    match RowContact(row, normalize)
    case None => m
    case Some(c) =>
      if (c.normalizedNumber !in m.entries || row.phoneType == TYPE_MOBILE) && Matches(c, query)
      then Put(m, c.normalizedNumber, c)
      else m
  }

  /** The map after the cursor loop has read `rows`. */
  function Collect(rows: seq<DirectoryRow>, query: string, normalize: string -> Option<string>): (m: LinkedMap)
    ensures Valid(m)
    ensures forall k :: k in m.entries ==> m.entries[k].normalizedNumber == k && Matches(m.entries[k], query)
  {
    if rows == [] then EmptyMap
    else Step(Collect(rows[..|rows| - 1], query, normalize), rows[|rows| - 1], query, normalize)
  }

  // ---------------------------------------------------------------------
  // Which row wins a normalized number
  // ---------------------------------------------------------------------

  /** A row that could enter the map under key `k`: named, numbered, normalizing to `k`, matching. */
  predicate Hits(row: DirectoryRow, k: string, query: string, normalize: string -> Option<string>) {
    var c := RowContact(row, normalize);
    c.Some? && c.value.normalizedNumber == k && Matches(c.value, query)
  }

  /** The contact of the first row that hits `k`. */
  function FirstHit(rows: seq<DirectoryRow>, k: string, query: string, normalize: string -> Option<string>): Option<Contact> {
    if rows == [] then None
    else match FirstHit(rows[..|rows| - 1], k, query, normalize)
      case Some(c) => Some(c)
      case None =>
        var row := rows[|rows| - 1];
        if Hits(row, k, query, normalize) then RowContact(row, normalize) else None
  }

  /** The contact of the last mobile row that hits `k`. */
  function LastMobileHit(rows: seq<DirectoryRow>, k: string, query: string, normalize: string -> Option<string>): Option<Contact> {
    if rows == [] then None
    else
      var row := rows[|rows| - 1];
      if row.phoneType == TYPE_MOBILE && Hits(row, k, query, normalize) then RowContact(row, normalize)
      else LastMobileHit(rows[..|rows| - 1], k, query, normalize)
  }

  lemma {:induction false} MobileHitIsAHit(rows: seq<DirectoryRow>, k: string, query: string, normalize: string -> Option<string>)
    ensures LastMobileHit(rows, k, query, normalize).Some? ==> FirstHit(rows, k, query, normalize).Some?
  {
    if rows != [] {
      MobileHitIsAHit(rows[..|rows| - 1], k, query, normalize);
    }
  }

  /**
   * The map holds a number exactly when some row hits it, and the contact
   * kept is the last matching mobile row for that number if there is one,
   * otherwise the first matching row.
   */
  lemma {:induction false} CollectPrefersMobile(rows: seq<DirectoryRow>, k: string, query: string, normalize: string -> Option<string>)
    ensures var m := Collect(rows, query, normalize);
      && (k in m.entries <==> FirstHit(rows, k, query, normalize).Some?)
      && (k in m.entries ==>
            m.entries[k] == LastMobileHit(rows, k, query, normalize).GetOr(FirstHit(rows, k, query, normalize).value))
  {
    if rows != [] {
      var init := rows[..|rows| - 1];
      CollectPrefersMobile(init, k, query, normalize);
      MobileHitIsAHit(init, k, query, normalize);
    }
  }

  // ---------------------------------------------------------------------
  // Ranking
  // ---------------------------------------------------------------------

  /** `String.compareTo(other) < 0`: lexicographic by character, a proper prefix first. */
  predicate StrLess(a: string, b: string) {
    if a == [] then b != []
    else if b == [] then false
    else a[0] < b[0] || (a[0] == b[0] && StrLess(a[1..], b[1..]))
  }

  lemma {:induction false} StrLessIrreflexive(a: string)
    ensures !StrLess(a, a)
  {
    if a != [] {
      StrLessIrreflexive(a[1..]);
    }
  }

  lemma {:induction false} StrLessTransitive(a: string, b: string, c: string)
    requires StrLess(a, b) && StrLess(b, c)
    ensures StrLess(a, c)
  {
    if a != [] && a[0] == b[0] && b[0] == c[0] {
      StrLessTransitive(a[1..], b[1..], c[1..]);
    }
  }

  lemma {:induction false} StrLessTotal(a: string, b: string)
    requires a != b
    ensures StrLess(a, b) || StrLess(b, a)
  {
    if a != [] && b != [] && a[0] == b[0] {
      assert a == [a[0]] + a[1..] && b == [b[0]] + b[1..];
      StrLessTotal(a[1..], b[1..]);
    }
  }

  /**
   * The sort key `compareBy { !equals(query, ignoreCase) } thenBy
   * { !startsWith(query, ignoreCase) } thenBy { name }`.
   */
  datatype RankKey = RankKey(notExact: bool, notPrefix: bool, name: string)

  function KeyOf(c: Contact, query: string): RankKey {
    RankKey(!EqualsIgnoreCase(c.name, query), !StartsWithIgnoreCase(c.name, query), c.name)
  }

  /** Booleans compare with false first. */
  predicate BoolLess(x: bool, y: bool) {
    !x && y
  }

  /** The three keys compared in turn. */
  predicate KeyLess(x: RankKey, y: RankKey) {
    || BoolLess(x.notExact, y.notExact)
    || (x.notExact == y.notExact && BoolLess(x.notPrefix, y.notPrefix))
    || (x.notExact == y.notExact && x.notPrefix == y.notPrefix && StrLess(x.name, y.name))
  }

  lemma KeyLessIrreflexive(x: RankKey)
    ensures !KeyLess(x, x)
  {
    StrLessIrreflexive(x.name);
  }

  lemma KeyLessTransitive(x: RankKey, y: RankKey, z: RankKey)
    requires KeyLess(x, y) && KeyLess(y, z)
    ensures KeyLess(x, z)
  {
    if x.notExact == y.notExact == z.notExact && x.notPrefix == y.notPrefix == z.notPrefix {
      StrLessTransitive(x.name, y.name, z.name);
    }
  }

  lemma KeyLessTotal(x: RankKey, y: RankKey)
    requires x != y
    ensures KeyLess(x, y) || KeyLess(y, x)
  {
    if x.notExact == y.notExact && x.notPrefix == y.notPrefix {
      StrLessTotal(x.name, y.name);
    }
  }

  /** The comparator of the final `sortedWith`, as "comes before". */
  function RankBefore(query: string): (Contact, Contact) -> bool {
    (a: Contact, b: Contact) => KeyLess(KeyOf(a, query), KeyOf(b, query))
  }

  /** The ranking is a strict weak order, so the stable sort is well defined on it. */
  lemma RankIsStrictWeakOrder(query: string)
    ensures StrictWeakOrder(RankBefore(query))
  {
    var before := RankBefore(query);
    forall a: Contact ensures !before(a, a) {
      KeyLessIrreflexive(KeyOf(a, query));
    }
    forall a: Contact, b: Contact, c: Contact | before(a, b) && before(b, c) ensures before(a, c) {
      KeyLessTransitive(KeyOf(a, query), KeyOf(b, query), KeyOf(c, query));
    }
    forall a: Contact, b: Contact, c: Contact | !before(a, b) && !before(b, c) ensures !before(a, c) {
      var x, y, z := KeyOf(a, query), KeyOf(b, query), KeyOf(c, query);
      if KeyLess(x, z) && x != y && y != z {
        KeyLessTotal(x, y);
        KeyLessTotal(y, z);
        KeyLessTransitive(z, y, x);
        KeyLessTransitive(x, z, x);
        KeyLessIrreflexive(x);
      }
    }
  }

  // ---------------------------------------------------------------------
  // The search
  // ---------------------------------------------------------------------

  function NumberKey(c: Contact): string {
    c.normalizedNumber
  }

  /**
   * `searchContacts(query)` over the rows the directory returned. The guard
   * counts the query's length in UTF-16 code units, as Kotlin's `length` does.
   */
  function Search(query: string, rows: seq<DirectoryRow>, normalize: string -> Option<string>): (r: seq<Contact>)
    ensures Utf16Length(query) < 2 ==> r == []
    ensures Utf16Length(query) >= 2 ==> multiset(r) == multiset(Values(Collect(rows, query, normalize)))
  {
    if Utf16Length(query) < 2 then []
    else Sort(Values(Collect(rows, query, normalize)), RankBefore(query))
  }

  /** A single character outside the Basic Multilingual Plane is two code units long, so it is searched. */
  lemma SupplementaryCharIsSearched(c: char, rows: seq<DirectoryRow>, normalize: string -> Option<string>)
    requires IsSupplementary(c)
    ensures Search([c], rows, normalize) == Sort(Values(Collect(rows, [c], normalize)), RankBefore([c]))
  {
  }

  /** Every suggestion matches, no number is suggested twice, and the list is in rank order. */
  lemma SearchProperties(query: string, rows: seq<DirectoryRow>, normalize: string -> Option<string>)
    ensures var r := Search(query, rows, normalize);
      && (Utf16Length(query) < 2 ==> r == [])
      && (forall c :: c in r ==> Matches(c, query))
      && KeysDistinct(r, NumberKey)
      && SortedBy(r, RankBefore(query))
  {
    if Utf16Length(query) >= 2 {
      var m := Collect(rows, query, normalize);
      var vals := Values(m);
      var r := Search(query, rows, normalize);
      forall c | c in r ensures Matches(c, query) {
        assert c in multiset(r);
        assert c in multiset(vals);
        var i :| 0 <= i < |vals| && vals[i] == c;
        assert m.keys[i] in m.entries;
      }
      assert KeysDistinct(vals, NumberKey) by {
        forall i, j | 0 <= i < j < |vals| ensures NumberKey(vals[i]) != NumberKey(vals[j]) {
          assert m.keys[i] in m.entries && m.keys[j] in m.entries;
        }
      }
      SortKeepsKeysDistinct(vals, NumberKey, RankBefore(query));
      RankIsStrictWeakOrder(query);
      SortSorted(vals, RankBefore(query));
    }
  }

  /** An exact name match is never ranked below a name that is not one. */
  lemma ExactMatchesFirst(query: string, rows: seq<DirectoryRow>, normalize: string -> Option<string>, i: nat, j: nat)
    requires i < j < |Search(query, rows, normalize)|
    ensures var r := Search(query, rows, normalize);
      EqualsIgnoreCase(r[j].name, query) ==> EqualsIgnoreCase(r[i].name, query)
  {
    SearchProperties(query, rows, normalize);
  }

  /** Among exact or among non-exact matches, a name the query starts is never ranked below one it does not. */
  lemma PrefixMatchesNext(query: string, rows: seq<DirectoryRow>, normalize: string -> Option<string>, i: nat, j: nat)
    requires i < j < |Search(query, rows, normalize)|
    ensures var r := Search(query, rows, normalize);
      EqualsIgnoreCase(r[i].name, query) == EqualsIgnoreCase(r[j].name, query) ==>
        StartsWithIgnoreCase(r[j].name, query) ==> StartsWithIgnoreCase(r[i].name, query)
  {
    SearchProperties(query, rows, normalize);
  }

  /** Contacts with the same name keep the order in which their numbers entered the map. */
  lemma SearchKeepsMapOrderOnTies(query: string, rows: seq<DirectoryRow>, normalize: string -> Option<string>, e: Contact)
    requires Utf16Length(query) >= 2
    ensures TiedWith(Search(query, rows, normalize), e, RankBefore(query))
         == TiedWith(Values(Collect(rows, query, normalize)), e, RankBefore(query))
  {
    RankIsStrictWeakOrder(query);
    SortStable(Values(Collect(rows, query, normalize)), e, RankBefore(query));
  }

  /**
   * `searchContacts`: a query under two characters returns nothing; otherwise
   * the cursor loop fills the map row by row and its values are ranked.
   */
  method SearchContacts(query: string, rows: seq<DirectoryRow>, normalize: string -> Option<string>)
    returns (contacts: seq<Contact>)
    ensures contacts == Search(query, rows, normalize)
    ensures Utf16Length(query) < 2 ==> contacts == []
    ensures forall c :: c in contacts ==> Matches(c, query)
    ensures KeysDistinct(contacts, NumberKey)
    ensures SortedBy(contacts, RankBefore(query))
  {
    if Utf16Length(query) < 2 {
      return [];
    }
    var order: seq<string> := [];
    var contactMap: map<string, Contact> := map[];
    var i := 0;
    while i < |rows|
      invariant 0 <= i <= |rows|
      invariant LinkedMap(order, contactMap) == Collect(rows[..i], query, normalize)
    {
      assert rows[..i + 1][..i] == rows[..i];
      ghost var previous := LinkedMap(order, contactMap);
      assert Collect(rows[..i + 1], query, normalize) == Step(previous, rows[i], query, normalize);
      var row := rows[i];
      if row.name.Some? && row.number.Some? {
        var name, number := row.name.value, row.number.value;
        var normalizedNumber := NormalizedOrRaw(normalize, number);
        if normalizedNumber !in contactMap || row.phoneType == TYPE_MOBILE {
          var contact := NewContact(row.id, name, number, normalize);
          if Matches(contact, query) {
            if normalizedNumber !in contactMap {
              order := order + [normalizedNumber];
            }
            contactMap := contactMap[normalizedNumber := contact];
          }
        }
      }
      assert LinkedMap(order, contactMap) == Step(previous, row, query, normalize);
      i := i + 1;
    }
    assert rows[..|rows|] == rows;
    contacts := Sort(Values(LinkedMap(order, contactMap)), RankBefore(query));
    SearchProperties(query, rows, normalize);
  }
}
