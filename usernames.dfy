/** The username that registration derives from a full name and a birthdate:
    the lower-cased name without spaces, followed by the first four characters
    of the birthdate once its hyphens are deleted (app.py, generate_username). */
module Usernames {

  /** Python's str.lower, modelled on ASCII only: 'A'..'Z' become 'a'..'z'
      and every other character is kept as it is. */
  predicate IsAsciiUpper(c: char) {
    'A' <= c <= 'Z'
  }

  function LowerChar(c: char): char {
    if IsAsciiUpper(c) then (c as int + 32) as char else c
  }

  /** Lower-casing a string: every character lowered, nothing added or dropped. */
  function Lower(s: string): (r: string)
    ensures |r| == |s|
    ensures forall i :: 0 <= i < |s| ==> r[i] == LowerChar(s[i])
  {
    if s == [] then [] else [LowerChar(s[0])] + Lower(s[1..])
  }

  /** How many times `c` occurs in `s` (Python's `s.count(c)`). */
  function Count(s: string, c: char): (n: nat)
    ensures n <= |s|
  {
    if s == [] then 0 else (if s[0] == c then 1 else 0) + Count(s[1..], c)
  }

  /** Replacing `c` by the empty string: every occurrence of `c` deleted. The result holds no
      `c`, every other character of `s` and nothing else, and is shorter than
      `s` by the number of occurrences of `c`. */
  function RemoveAll(s: string, c: char): (r: string)
    ensures c !in r
    ensures forall x :: x in r <==> x in s && x != c
    ensures |r| == |s| - Count(s, c)
  {
    if s == [] then []
    else
      assert s == [s[0]] + s[1..];
      if s[0] == c then RemoveAll(s[1..], c) else [s[0]] + RemoveAll(s[1..], c)
  }

  function Min(a: int, b: int): int {
    if a <= b then a else b
  }

  /** Python's slice `s[:n]` for `n >= 0`: a prefix of `s`, as long as `n`
      allows and `s` has. */
  function Take(s: string, n: nat): (r: string)
    ensures |r| == Min(n, |s|)
    ensures r <= s
  {
    if |s| <= n then s else s[..n]
  }

  /** How many birthdate characters the username keeps (app.py:71). */
  const BirthPartLength: nat := 4

  /** The full name lowered, with its spaces deleted (app.py:71). */
  function NamePart(fullName: string): string {
    RemoveAll(Lower(fullName), ' ')
  }

  /** The first four characters of the birthdate once its hyphens are
      deleted (app.py:71). */
  function BirthPart(birthdate: string): string {
    Take(RemoveAll(birthdate, '-'), BirthPartLength)
  }

  /** The username registration derives: the name part, then the birthdate
      part (app.py:69-71). */
  function GenerateUsername(fullName: string, birthdate: string): string {
    NamePart(fullName) + BirthPart(birthdate)
  }

  /** Deletion distributes over concatenation, so it keeps the order of what
      it does not delete. */
  lemma {:induction false} RemoveAllAppend(a: string, b: string, c: char)
    ensures RemoveAll(a + b, c) == RemoveAll(a, c) + RemoveAll(b, c)
  {
    if a == [] {
      assert a + b == b;
    } else {
      assert (a + b)[0] == a[0];
      assert (a + b)[1..] == a[1..] + b;
      RemoveAllAppend(a[1..], b, c);
    }
  }

  /** Deleting a character that does not occur changes nothing. */
  lemma {:induction false} RemoveAllAbsent(s: string, c: char)
    requires c !in s
    ensures RemoveAll(s, c) == s
  {
    if s != [] {
      assert s == [s[0]] + s[1..];
      RemoveAllAbsent(s[1..], c);
    }
  }

  /** Deletion keeps every other character as often as it occurs: as a
      multiset, the result is `s` with all copies of `c` taken out. */
  lemma {:induction false} RemoveAllMultiset(s: string, c: char)
    ensures multiset(RemoveAll(s, c)) == multiset(s)[c := 0]
  {
    if s != [] {
      assert s == [s[0]] + s[1..];
      RemoveAllMultiset(s[1..], c);
    }
  }

  /** Deleting the one separator between two words that hold none. */
  lemma RemoveSeparator(a: string, b: string, c: char)
    requires c !in a && c !in b
    ensures RemoveAll(a + [c] + b, c) == a + b
  {
    var sep: string := [c];
    assert RemoveAll(sep, c) == [] by {
      assert sep[1..] == [];
    }
    assert RemoveAll(a + sep, c) == a by {
      RemoveAllAppend(a, sep, c);
      RemoveAllAbsent(a, c);
    }
    assert RemoveAll(a + sep + b, c) == a + b by {
      RemoveAllAppend(a + sep, b, c);
      RemoveAllAbsent(b, c);
    }
  }

  /** Lowering never produces or removes a space, so lowering and then
      deleting spaces is the same as deleting spaces and then lowering. */
  lemma {:induction false} NamePartStripsThenLowers(s: string)
    ensures NamePart(s) == Lower(RemoveAll(s, ' '))
  {
    if s != [] {
      var l := Lower(s);
      assert l == [LowerChar(s[0])] + Lower(s[1..]);
      assert l[0] == LowerChar(s[0]) && l[1..] == Lower(s[1..]);
      assert LowerChar(s[0]) == ' ' <==> s[0] == ' ';
      NamePartStripsThenLowers(s[1..]);
    }
  }

  /** The shape of every derived username, whatever the inputs: a name part
      of `|fullName|` minus its spaces characters, holding no space and no
      upper-case ASCII letter, then the first `min(4, n)` characters of the
      birthdate with its hyphens deleted, where `n` is how many remain. */
  lemma UsernameShape(fullName: string, birthdate: string)
    ensures var r := GenerateUsername(fullName, birthdate);
            var k := |fullName| - Count(fullName, ' ');
            var digits := RemoveAll(birthdate, '-');
            && |r| == k + Min(BirthPartLength, |digits|)
            && r[..k] == Lower(RemoveAll(fullName, ' '))
            && (forall i :: 0 <= i < k ==> r[i] != ' ' && !IsAsciiUpper(r[i]))
            && '-' !in r[k..]
            && r[k..] <= digits
  {
    var r := GenerateUsername(fullName, birthdate);
    NamePartStripsThenLowers(fullName);
    var k := |NamePart(fullName)|;
    assert r[..k] == NamePart(fullName);
    assert r[k..] == BirthPart(birthdate);
    forall i | 0 <= i < k
      ensures r[i] != ' ' && !IsAsciiUpper(r[i])
    {
      assert r[i] == NamePart(fullName)[i];
      assert r[i] == Lower(RemoveAll(fullName, ' '))[i];
    }
  }

  predicate IsDigit(c: char) {
    '0' <= c <= '9'
  }

  /** The `YYYY-MM-DD` text that a date input field submits. */
  predicate IsIsoDate(s: string) {
    && |s| == 10
    && s[4] == '-' && s[7] == '-'
    && forall i :: 0 <= i < 10 && i != 4 && i != 7 ==> IsDigit(s[i])
  }

  /** For an ISO date the birthdate part of the username is the birth year. */
  lemma BirthPartOfIsoDate(birthdate: string)
    requires IsIsoDate(birthdate)
    ensures BirthPart(birthdate) == birthdate[..4]
  {
    var year, rest := birthdate[..4], birthdate[4..];
    assert birthdate == year + rest;
    assert forall i :: 0 <= i < 4 ==> year[i] != '-' by {
      forall i | 0 <= i < 4 ensures year[i] != '-' {
        assert year[i] == birthdate[i] && IsDigit(birthdate[i]);
      }
    }
    RemoveAllAppend(year, rest, '-');
    RemoveAllAbsent(year, '-');
  }

  /** With an ISO birthdate the username is the full name stripped of
      spaces and lower-cased, followed by the birth year. */
  lemma UsernameOfIsoDate(fullName: string, birthdate: string)
    requires IsIsoDate(birthdate)
    ensures GenerateUsername(fullName, birthdate) == Lower(RemoveAll(fullName, ' ')) + birthdate[..4]
  {
    NamePartStripsThenLowers(fullName);
    BirthPartOfIsoDate(birthdate);
  }

  /** The worked example: ("Alice Smith", "2005-03-14") gives "alicesmith2005". */
  lemma AliceUsername()
    ensures GenerateUsername("Alice Smith", "2005-03-14") == "alicesmith2005"
  {
    calc {
      GenerateUsername("Alice Smith", "2005-03-14");
      NamePart("Alice Smith") + BirthPart("2005-03-14");
      { AliceNamePart(); AliceBirthPart(); }
      "alicesmith" + "2005";
      "alicesmith2005";
    }
  }

  /** The derivation is not injective: a different person who writes the
      same name in another case or spacing and was born in the same year
      gets the same username, which registration must then refuse. */
  lemma UsernamesCollide()
    ensures GenerateUsername("alice smith", "2005-11-30") == "alicesmith2005"
  {
    calc {
      GenerateUsername("alice smith", "2005-11-30");
      NamePart("alice smith") + BirthPart("2005-11-30");
      { TwinNamePart(); TwinBirthPart(); }
      "alicesmith" + "2005";
      "alicesmith2005";
    }
  }

  // The steps of the two examples, one fact per lemma.

  lemma AliceWithoutSpaces()
    ensures RemoveAll("Alice Smith", ' ') == "AliceSmith"
  {
    calc {
      RemoveAll("Alice Smith", ' ');
      { assert "Alice Smith" == "Alice" + [' '] + "Smith"; }
      RemoveAll("Alice" + [' '] + "Smith", ' ');
      { RemoveSeparator("Alice", "Smith", ' '); }
      "Alice" + "Smith";
      "AliceSmith";
    }
  }

  lemma AliceLowered()
    ensures Lower("AliceSmith") == "alicesmith"
  {
  }

  lemma AliceNamePart()
    ensures NamePart("Alice Smith") == "alicesmith"
  {
    AliceWithoutSpaces();
    AliceLowered();
    NamePartStripsThenLowers("Alice Smith");
  }

  lemma AliceBirthPart()
    ensures BirthPart("2005-03-14") == "2005"
  {
    BirthPartOfIsoDate("2005-03-14");
  }

  lemma TwinWithoutSpaces()
    ensures RemoveAll("alice smith", ' ') == "alicesmith"
  {
    calc {
      RemoveAll("alice smith", ' ');
      { assert "alice smith" == "alice" + [' '] + "smith"; }
      RemoveAll("alice" + [' '] + "smith", ' ');
      { RemoveSeparator("alice", "smith", ' '); }
      "alice" + "smith";
      "alicesmith";
    }
  }

  lemma TwinLowered()
    ensures Lower("alicesmith") == "alicesmith"
  {
  }

  lemma TwinNamePart()
    ensures NamePart("alice smith") == "alicesmith"
  {
    TwinWithoutSpaces();
    TwinLowered();
    NamePartStripsThenLowers("alice smith");
  }

  lemma TwinBirthPart()
    ensures BirthPart("2005-11-30") == "2005"
  {
    BirthPartOfIsoDate("2005-11-30");
  }
}
