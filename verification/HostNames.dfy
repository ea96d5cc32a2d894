/**
 Host names, the proper-subdomain relation, and the SQL pattern match that the
 persistence layer uses to decide it.
 */
module HostNames {

  /** Characters the schema admits in a stored ASCII domain name. */
  predicate NameChar(c: char) {
    'a' <= c <= 'z' || '0' <= c <= '9' || c == '.' || c == '-'
  }

  predicate AllNameChars(s: string) {
    forall i :: 0 <= i < |s| ==> NameChar(s[i])
  }

  predicate Alphanumeric(c: char) {
    'a' <= c <= 'z' || '0' <= c <= '9'
  }

  /** The CHECK constraint on `domains.ascii_name`. */
  predicate StorableName(s: string) {
    3 <= |s| <= 253 && AllNameChars(s) && Alphanumeric(s[0]) && Alphanumeric(s[|s| - 1])
  }

  predicate EndsWith(s: string, suffix: string) {
    |suffix| <= |s| && s[|s| - |suffix|..] == suffix
  }

  /** `host` is a proper subdomain of `name`. */
  predicate Under(host: string, name: string) {
    EndsWith(host, "." + name)
  }

  function Fold(c: char): char {
    if 'A' <= c <= 'Z' then c - 'A' + 'a' else c
  }

  /** SQL LIKE: '%' matches any run, '_' any one character, ASCII letters ignore case. */
  predicate Like(text: string, pattern: string)
    decreases |text| + |pattern|
  {
    if pattern == "" then text == ""
    else if pattern[0] == '%' then
      Like(text, pattern[1..]) || (text != "" && Like(text[1..], pattern))
    else
      text != "" && (pattern[0] == '_' || Fold(pattern[0]) == Fold(text[0])) && Like(text[1..], pattern[1..])
  }

  /** The pattern the queries build: '%.' || name. */
  function BelowPattern(name: string): string {
    "%." + name
  }

  lemma {:induction false} LikeLiteral(text: string, literal: string)
    requires AllNameChars(text) && AllNameChars(literal)
    ensures Like(text, literal) <==> text == literal
  {
    if literal != "" && text != "" {
      LikeLiteral(text[1..], literal[1..]);
      assert text == [text[0]] + text[1..];
      assert literal == [literal[0]] + literal[1..];
    }
  }

  lemma {:induction false} LikeSuffix(text: string, literal: string)
    requires AllNameChars(text) && AllNameChars(literal)
    ensures Like(text, "%" + literal) <==> EndsWith(text, literal)
    decreases |text|
  {
    var pattern := "%" + literal;
    assert pattern[1..] == literal;
    LikeLiteral(text, literal);
    if text != "" {
      LikeSuffix(text[1..], literal);
      if |literal| <= |text| - 1 {
        assert text[1..][|text| - 1 - |literal|..] == text[|text| - |literal|..];
      } else if |literal| == |text| {
        assert text[|text| - |literal|..] == text;
      }
    }
  }

  /** On stored names the pattern match decides exactly the proper-subdomain relation. */
  lemma LikeDecidesUnder(host: string, name: string)
    requires AllNameChars(host) && AllNameChars(name)
    ensures Like(host, BelowPattern(name)) <==> Under(host, name)
  {
    var dotted := "." + name;
    assert AllNameChars(dotted) by {
      forall i | 0 <= i < |dotted| ensures NameChar(dotted[i]) {
        assert i > 0 ==> dotted[i] == name[i - 1];
      }
    }
    assert BelowPattern(name) == "%" + dotted;
    LikeSuffix(host, dotted);
  }

  lemma SuffixOfSuffix(s: string, long: string, short: string)
    requires EndsWith(s, long) && EndsWith(s, short) && |short| <= |long|
    ensures EndsWith(long, short)
  {
    assert long[|long| - |short|..] == s[|s| - |short|..];
  }

  /** Two names that both lie above one host are equal or one lies above the other. */
  lemma AncestorsComparable(host: string, a: string, b: string)
    requires Under(host, a) && Under(host, b)
    ensures a == b || Under(a, b) || Under(b, a)
  {
    var da, db := "." + a, "." + b;
    if |a| < |b| {
      SuffixOfSuffix(host, db, da);
      assert db[|db| - |da|..] == b[|b| - |da|..];
    } else if |b| < |a| {
      SuffixOfSuffix(host, da, db);
      assert da[|da| - |db|..] == a[|a| - |db|..];
    } else {
      assert da == db;
      assert a == da[1..] && b == db[1..];
    }
  }

  /** The alias every domain row reserves next to its own name. */
  function Www(name: string): string {
    "www." + name
  }

  lemma WwwUnder(name: string)
    ensures Under(Www(name), name)
  {
    assert Www(name)[3..] == "." + name;
  }

  /** Nothing but the name itself and its subdomains lies at or below the www alias. */
  lemma UnderWww(name: string, above: string)
    requires Under(Www(name), above)
    ensures above == name || Under(name, above)
  {
    WwwUnder(name);
    var dn, da := "." + name, "." + above;
    assert Www(name)[|Www(name)| - |da|] == da[0] == '.';
    SuffixOfSuffix(Www(name), dn, da);
    if |above| == |name| {
      assert dn == da;
      assert name == dn[1..] && above == da[1..];
    } else {
      assert dn[|dn| - |da|..] == name[|name| - |da|..];
    }
  }

  // ----- Sorting ----------------------------------------------------------

  /** Bytewise order of names. */
  predicate Below(a: string, b: string) {
    b != "" && (a == "" || a[0] < b[0] || (a[0] == b[0] && Below(a[1..], b[1..])))
  }

  function InsertName(x: string, names: seq<string>): seq<string> {
    if names == [] then [x]
    else if Below(names[0], x) then [names[0]] + InsertName(x, names[1..])
    else [x] + names
  }

  function Sorted(names: seq<string>): seq<string> {
    if names == [] then [] else InsertName(names[0], Sorted(names[1..]))
  }

  predicate Ordered(names: seq<string>) {
    forall i :: 0 < i < |names| ==> !Below(names[i], names[i - 1])
  }

  lemma {:induction false} BelowIsTotal(a: string, b: string)
    ensures a == b || Below(a, b) || Below(b, a)
    ensures !(Below(a, b) && Below(b, a)) && (a == b ==> !Below(a, b))
  {
    if a != "" && b != "" && a[0] == b[0] {
      BelowIsTotal(a[1..], b[1..]);
      assert a == [a[0]] + a[1..] && b == [b[0]] + b[1..];
    }
  }

  lemma {:induction false} InsertKeepsOrder(x: string, names: seq<string>)
    requires Ordered(names)
    ensures Ordered(InsertName(x, names))
  {
    if names == [] {
    } else if Below(names[0], x) {
      var rest := names[1..];
      assert names == [names[0]] + rest;
      assert forall i :: 0 < i < |rest| ==> rest[i] == names[i + 1] && rest[i - 1] == names[i];
      InsertKeepsOrder(x, rest);
      BelowIsTotal(names[0], x);
      var inserted := InsertName(x, rest);
      assert inserted[0] == x || inserted[0] == rest[0];
    } else {
      var r := [x] + names;
      forall i | 0 < i < |r| ensures !Below(r[i], r[i - 1]) {
        assert i > 1 ==> r[i] == names[i - 1] && r[i - 1] == names[i - 2];
      }
    }
  }

  lemma {:induction false} InsertKeepsAll(x: string, names: seq<string>)
    ensures multiset(InsertName(x, names)) == multiset(names) + multiset{x}
  {
    if names != [] {
      assert names == [names[0]] + names[1..];
      InsertKeepsAll(x, names[1..]);
    }
  }

  /** Sorting puts the names in order and keeps each as often as it occurs. */
  lemma {:induction false} SortedIsOrdered(names: seq<string>)
    ensures Ordered(Sorted(names)) && multiset(Sorted(names)) == multiset(names)
  {
    if names != [] {
      SortedIsOrdered(names[1..]);
      InsertKeepsOrder(names[0], Sorted(names[1..]));
      InsertKeepsAll(names[0], Sorted(names[1..]));
      assert names == [names[0]] + names[1..];
    }
  }

  /** A pair is some sorted list if and only if it is in order, and then it is its own. */
  lemma PairSorted(x: string, y: string)
    requires x != y
    ensures (exists names :: Sorted(names) == [x, y]) <==> Below(x, y)
    ensures Below(x, y) ==> Sorted([x, y]) == [x, y]
  {
    BelowIsTotal(x, y);
    if Below(x, y) {
      assert [x, y][1..] == [y] && [y][1..] == [];
      assert InsertName(y, []) == [y];
      assert Sorted([y]) == [y];
      assert InsertName(x, [y]) == [x] + [y] == [x, y];
      assert Sorted([x, y]) == [x, y];
    } else {
      forall names ensures Sorted(names) != [x, y] {
        SortedIsOrdered(names);
      }
    }
  }
}
