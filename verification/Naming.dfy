/**
 The string functions that turn a feature name into Go identifiers and a table
 name, and exactly when two names end up the same.

 A string is a sequence of bytes, one `char` each, as Go indexes it.
 */
module Naming {

  predicate IsLower(c: char) { 'a' <= c <= 'z' }

  predicate IsUpper(c: char) { 'A' <= c <= 'Z' }

  predicate IsDigit(c: char) { '0' <= c <= '9' }

  // A lone byte above 0x7F is not UTF-8: case mapping replaces it by U+FFFD.
  const REPLACEMENT: string := ['\U{EF}', '\U{BF}', '\U{BD}']

  function UpperByte(c: char): string {
    if IsLower(c) then [(c as int - 32) as char]
    else if c as int < 0x80 then [c]
    else REPLACEMENT
  }

  function LowerByte(c: char): string {
    if IsUpper(c) then [(c as int + 32) as char]
    else if c as int < 0x80 then [c]
    else REPLACEMENT
  }

  // Letters keep their place in the alphabet, other bytes of ASCII stay, and any
  // other byte becomes the three bytes EF BF BD.
  lemma CaseLaw(c: char)
    ensures 'a' <= c <= 'z' ==> |UpperByte(c)| == 1 && UpperByte(c)[0] as int - 'A' as int == c as int - 'a' as int
    ensures 'A' <= c <= 'Z' ==> |LowerByte(c)| == 1 && LowerByte(c)[0] as int - 'a' as int == c as int - 'A' as int
    ensures c as int < 128 && !('a' <= c <= 'z') ==> UpperByte(c) == [c]
    ensures c as int < 128 && !('A' <= c <= 'Z') ==> LowerByte(c) == [c]
    ensures c as int >= 128 ==> UpperByte(c) == LowerByte(c) == [239 as char, 191 as char, 189 as char]
  {
  }

  // strings.Split(s, "_")
  function Split(s: string): (parts: seq<string>)
    ensures |parts| > 0
  {
    if s == "" then [""]
    else
      var rest := Split(s[1..]);
      if s[0] == '_' then [""] + rest else [[s[0]] + rest[0]] + rest[1..]
  }

  function Capitalize(part: string): string {
    if part == "" then "" else UpperByte(part[0]) + part[1..]
  }

  function Join(parts: seq<string>): string {
    if parts == [] then "" else Capitalize(parts[0]) + Join(parts[1..])
  }

  function PascalCase(name: string): string {
    Join(Split(name))
  }

  lemma {:induction false} JoinAppend(parts: seq<string>, part: string)
    ensures Join(parts + [part]) == Join(parts) + Capitalize(part)
  {
    if parts != [] {
      assert (parts + [part])[1..] == parts[1..] + [part];
      JoinAppend(parts[1..], part);
    }
  }

  lemma JoinNext(parts: seq<string>, i: nat)
    requires i < |parts|
    ensures Join(parts[..i + 1]) == Join(parts[..i]) + Capitalize(parts[i])
  {
    assert parts[..i + 1] == parts[..i] + [parts[i]];
    JoinAppend(parts[..i], parts[i]);
  }

  // The builder is written to twice: the first byte, then the rest, if any.
  lemma WrittenTwice(before: string, part: string)
    requires part != ""
    ensures before + Capitalize(part) == before + UpperByte(part[0]) + part[1..]
    ensures |part| == 1 ==> before + Capitalize(part) == before + UpperByte(part[0])
  {
  }

  method ToPascalCase(name: string) returns (pascal: string)
    ensures pascal == PascalCase(name)
  {
    var parts := Split(name);
    pascal := "";
    for i := 0 to |parts|
      invariant pascal == Join(parts[..i])
    {
      var part := parts[i];
      JoinNext(parts, i);
      if part == "" {
        continue;
      }
      WrittenTwice(pascal, part);
      pascal := pascal + UpperByte(part[0]);
      if |part| > 1 {
        pascal := pascal + part[1..];
      }
    }
    assert parts[..|parts|] == parts;
  }

  function LowerCamelCase(name: string): string {
    var pascal := PascalCase(name);
    if pascal == "" then "" else LowerByte(pascal[0]) + pascal[1..]
  }

  // ---- The same in one pass ----

  // `up` says that the next byte starts a segment.
  function Camel(s: string, up: bool): string {
    if s == "" then ""
    else if s[0] == '_' then Camel(s[1..], true)
    else (if up then UpperByte(s[0]) else [s[0]]) + Camel(s[1..], false)
  }

  lemma SplitStep(s: string)
    requires s != ""
    ensures s[0] == '_' ==> Split(s)[0] == "" && Split(s)[1..] == Split(s[1..])
    ensures s[0] != '_' ==> Split(s)[0] == [s[0]] + Split(s[1..])[0] && Split(s)[1..] == Split(s[1..])[1..]
  {
  }

  lemma JoinHead(parts: seq<string>)
    requires parts != []
    ensures Join(parts) == Capitalize(parts[0]) + Join(parts[1..])
  {
  }

  // A capitalized segment, taken apart after its first byte.
  lemma CapitalizeHead(c: char, part: string, more: string)
    ensures Capitalize([c] + part) + more == UpperByte(c) + (part + more)
    ensures [c] + part + more == [c] + (part + more)
  {
    assert Capitalize([c] + part) == UpperByte(c) + part by {
      assert ([c] + part)[1..] == part;
    }
    Reassociate(UpperByte(c), part, more);
    Reassociate([c], part, more);
  }

  lemma Reassociate(x: string, y: string, z: string)
    ensures (x + y) + z == x + (y + z)
  {
  }

  lemma {:induction false} JoinIsCamel(s: string)
    ensures Join(Split(s)) == Camel(s, true)
    ensures Split(s)[0] + Join(Split(s)[1..]) == Camel(s, false)
  {
    JoinHead(Split(s));
    if s != "" {
      JoinIsCamel(s[1..]);
      SplitStep(s);
      if s[0] != '_' {
        CapitalizeHead(s[0], Split(s[1..])[0], Join(Split(s)[1..]));
      }
    }
  }

  // ---- Feature names ----

  predicate NameByte(c: char) {
    IsLower(c) || IsDigit(c) || c == '_'
  }

  predicate NameBytes(s: string) {
    forall k :: 0 <= k < |s| ==> NameByte(s[k])
  }

  // ^[a-z][a-z0-9_]*$
  predicate ValidName(name: string) {
    name != "" && IsLower(name[0]) && NameBytes(name)
  }

  // A valid name starts with a letter and goes on with letters, digits and
  // underscores, and there is nothing else in it.
  lemma ValidNameLaw(name: string)
    ensures ValidName(name) <==>
            && name != "" && 'a' <= name[0] <= 'z'
            && forall c :: c in name ==> 'a' <= c <= 'z' || '0' <= c <= '9' || c == '_'
  {
    assert forall k :: 0 <= k < |name| ==> name[k] in name;
  }

  // Nonempty segments, each starting with a letter.
  predicate Canonical(name: string) {
    ValidName(name) && forall k :: 0 <= k < |name| && name[k] == '_' ==> k + 1 < |name| && IsLower(name[k + 1])
  }

  predicate StartsLower(s: string) {
    s != "" && IsLower(s[0])
  }

  // The name without the underscores that leave no trace: those not followed
  // by a letter.
  function Squash(s: string): string {
    if s == "" then ""
    else if s[0] == '_' && !StartsLower(s[1..]) then Squash(s[1..])
    else [s[0]] + Squash(s[1..])
  }

  // Back from camel case: an underscore before every capital but the first byte.
  function Snake(s: string, first: bool): string {
    if s == "" then ""
    else if IsUpper(s[0]) then (if first then "" else "_") + LowerByte(s[0]) + Snake(s[1..], false)
    else [s[0]] + Snake(s[1..], false)
  }

  lemma {:induction false} SnakeOfCamel(s: string, up: bool)
    requires NameBytes(s)
    ensures Snake(Camel(s, up), false) == (if up && StartsLower(s) then "_" else "") + Squash(s)
  {
    if s != "" {
      if s[0] == '_' {
        SnakeOfCamel(s[1..], true);
        SnakeOfUnderscore(s, up);
      } else {
        SnakeOfCamel(s[1..], false);
        SnakeStep(s, up);
        var mark, rest := if up && IsLower(s[0]) then "_" else "", Squash(s[1..]);
        assert mark + [s[0]] + rest == mark + ([s[0]] + rest);
      }
    }
  }

  // An underscore leaves a mark only through the letter after it.
  lemma SnakeOfUnderscore(s: string, up: bool)
    requires s != "" && s[0] == '_'
    ensures Camel(s, up) == Camel(s[1..], true) && !StartsLower(s)
    ensures Squash(s) == (if StartsLower(s[1..]) then "_" else "") + Squash(s[1..])
  {
  }

  // One letter or digit, possibly capitalized, comes back as itself.
  lemma SnakeStep(s: string, up: bool)
    requires NameBytes(s) && s != "" && s[0] != '_'
    ensures Snake(Camel(s, up), false)
            == (if up && IsLower(s[0]) then "_" else "") + [s[0]] + Snake(Camel(s[1..], false), false)
  {
    var head, tail := if up then UpperByte(s[0]) else [s[0]], Camel(s[1..], false);
    assert |head| == 1 && Camel(s, up) == head + tail;
    assert (head + tail)[0] == head[0] && (head + tail)[1..] == tail;
    assert up && IsLower(s[0]) ==> LowerByte(head[0]) == [s[0]];
  }

  lemma PascalHead(name: string)
    requires ValidName(name)
    ensures PascalCase(name) == UpperByte(name[0]) + Camel(name[1..], false)
    ensures |UpperByte(name[0])| == 1 && IsUpper(UpperByte(name[0])[0])
            && LowerByte(UpperByte(name[0])[0]) == [name[0]]
    ensures LowerCamelCase(name) == [name[0]] + Camel(name[1..], false)
  {
    JoinIsCamel(name);
    var tail := Camel(name[1..], false);
    assert (UpperByte(name[0]) + tail)[1..] == tail;
  }

  // The first byte takes no underscore.
  lemma SnakeFirst(c: char, tail: string)
    ensures Snake([c] + tail, true) == (if IsUpper(c) then LowerByte(c) else [c]) + Snake(tail, false)
  {
    assert ([c] + tail)[1..] == tail;
  }

  lemma SquashFirst(name: string)
    requires ValidName(name)
    ensures Squash(name) == [name[0]] + Squash(name[1..])
  {
  }

  lemma SnakeOfPascal(name: string, first: char)
    requires ValidName(name)
    requires first == name[0] || [first] == UpperByte(name[0])
    ensures Snake([first] + Camel(name[1..], false), true) == Squash(name)
  {
    SnakeFirst(first, Camel(name[1..], false));
    SnakeOfCamel(name[1..], false);
    SquashFirst(name);
    BackToLower(first, name[0]);
  }

  lemma BackToLower(first: char, c: char)
    requires IsLower(c) && (first == c || [first] == UpperByte(c))
    ensures (if IsUpper(first) then LowerByte(first) else [first]) == [c]
  {
    if first != c {
      assert UpperByte(c)[0] == first;
    }
  }

  // Pascal case loses exactly the underscores Squash drops.
  lemma PascalRoundTrip(name: string)
    requires ValidName(name)
    ensures Snake(PascalCase(name), true) == Squash(name)
    ensures Snake(LowerCamelCase(name), true) == Squash(name)
  {
    PascalHead(name);
    var first := UpperByte(name[0])[0];
    assert UpperByte(name[0]) == [first];
    SnakeOfPascal(name, first);
    SnakeOfPascal(name, name[0]);
  }

  lemma {:induction false} CamelOfSquash(s: string, up: bool)
    requires NameBytes(s)
    ensures Camel(Squash(s), up) == Camel(s, up)
  {
    if s != "" {
      var t := s[1..];
      if s[0] == '_' && !StartsLower(t) {
        CamelOfSquash(t, up);
        NoLetterNoCase(t);
      } else {
        assert Squash(s)[1..] == Squash(t);
        CamelOfSquash(t, s[0] == '_');
      }
    }
  }

  lemma NoLetterNoCase(t: string)
    requires NameBytes(t) && !StartsLower(t)
    ensures Camel(t, true) == Camel(t, false)
  {
  }

  // Two feature names get the same service name exactly when they differ only
  // in underscores not followed by a letter; the same law holds for the fields
  // of the registry.
  lemma PascalCollision(a: string, b: string)
    requires ValidName(a) && ValidName(b)
    ensures PascalCase(a) == PascalCase(b) <==> Squash(a) == Squash(b)
    ensures LowerCamelCase(a) == LowerCamelCase(b) <==> Squash(a) == Squash(b)
  {
    PascalRoundTrip(a);
    PascalRoundTrip(b);
    JoinIsCamel(a);
    JoinIsCamel(b);
    CamelOfSquash(a, true);
    CamelOfSquash(b, true);
  }

  lemma {:induction false} SquashFixes(s: string)
    requires NameBytes(s)
    ensures |Squash(s)| <= |s|
    ensures Squash(s) == s <==> forall k :: 0 <= k < |s| && s[k] == '_' ==> k + 1 < |s| && IsLower(s[k + 1])
  {
    if s != "" {
      var t := s[1..];
      SquashFixes(t);
      if s[0] == '_' && !StartsLower(t) {
        assert |Squash(s)| < |s|;
      } else {
        assert Squash(s)[1..] == Squash(t);
        assert forall k :: 0 <= k < |t| ==> t[k] == s[k + 1];
        if Squash(t) == t {
          forall k | 0 <= k < |s| && s[k] == '_' ensures k + 1 < |s| && IsLower(s[k + 1]) {
            if k > 0 {
              assert t[k - 1] == '_';
            }
          }
        } else {
          var k :| 0 <= k < |t| && t[k] == '_' && !(k + 1 < |t| && IsLower(t[k + 1]));
          assert s[k + 1] == '_' && !(k + 2 < |s| && IsLower(s[k + 2]));
          assert Squash(s) != s;
        }
      }
    }
  }

  // On canonical names, and on no other valid name, the round trip is exact.
  lemma CanonicalIsRoundTrip(name: string)
    requires ValidName(name)
    ensures Canonical(name) <==> Snake(PascalCase(name), true) == name
    ensures Canonical(name) <==> Snake(LowerCamelCase(name), true) == name
  {
    PascalRoundTrip(name);
    SquashFixes(name);
  }

  // ---- Table names ----

  predicate IsVowel(c: char) {
    c == 'a' || c == 'e' || c == 'i' || c == 'o' || c == 'u'
  }

  predicate HasSuffix(s: string, suffix: string) {
    |suffix| <= |s| && s[|s| - |suffix|..] == suffix
  }

  predicate ConsonantY(name: string) {
    HasSuffix(name, "y") && |name| > 1 && !IsVowel(name[|name| - 2])
  }

  predicate Sibilant(name: string) {
    HasSuffix(name, "s") || HasSuffix(name, "x") || HasSuffix(name, "z")
    || HasSuffix(name, "ch") || HasSuffix(name, "sh")
  }

  function Pluralize(name: string): string {
    if ConsonantY(name) then name[..|name| - 1] + "ies"
    else if Sibilant(name) then name + "es"
    else name + "s"
  }

  lemma SuffixOfOne(s: string, t: string)
    requires s != "" && |t| == 1
    ensures HasSuffix(s, t) <==> s[|s| - 1] == t[0]
  {
    assert s[|s| - 1..] == [s[|s| - 1]] && t == [t[0]];
  }

  lemma SuffixOfTwo(s: string, t: string)
    requires |t| == 2
    ensures HasSuffix(s, t) <==> |s| > 1 && s[|s| - 2] == t[0] && s[|s| - 1] == t[1]
  {
    if |s| > 1 {
      assert s[|s| - 2..] == [s[|s| - 2], s[|s| - 1]] && t == [t[0], t[1]];
    }
  }

  lemma SibilantLaw(name: string)
    requires name != ""
    ensures var y, x := name[|name| - 1], if |name| > 1 then name[|name| - 2] else '-';
            Sibilant(name) <==> y == 's' || y == 'x' || y == 'z' || (y == 'h' && (x == 'c' || x == 's'))
  {
    SuffixOfOne(name, "s");
    SuffixOfOne(name, "x");
    SuffixOfOne(name, "z");
    SuffixOfTwo(name, "ch");
    SuffixOfTwo(name, "sh");
  }

  // The plural on the last byte y and the byte x before it.
  lemma PluralLaw(name: string)
    requires name != ""
    ensures var y, x := name[|name| - 1], if |name| > 1 then name[|name| - 2] else '-';
            var vowel := x == 'a' || x == 'e' || x == 'i' || x == 'o' || x == 'u';
            Pluralize(name) ==
            if y == 'y' && |name| > 1 && !vowel then name[..|name| - 1] + "ies"
            else if y == 's' || y == 'x' || y == 'z' || (y == 'h' && (x == 'c' || x == 's')) then name + "es"
            else name + "s"
  {
    SibilantLaw(name);
    SuffixOfOne(name, "y");
  }

  // a and a+"e" for a sibilant a; or c+"y" and c+"ie".
  predicate PluralPair(a: string, b: string) {
    || (Sibilant(a) && b == a + "e")
    || (ConsonantY(a) && b == a[..|a| - 1] + "ie")
  }

  lemma LastByte(s: string, suffix: string)
    requires HasSuffix(s, suffix) && suffix != ""
    ensures s != "" && s[|s| - 1] == suffix[|suffix| - 1]
  {
    assert s[|s| - |suffix|..][|suffix| - 1] == s[|s| - 1];
  }

  // The endings, read off the last two bytes.
  lemma Endings(s: string)
    ensures ConsonantY(s) <==> |s| > 1 && s[|s| - 1] == 'y' && !IsVowel(s[|s| - 2])
    ensures Sibilant(s) ==> s != "" && s[|s| - 1] in "sxzh"
  {
    if s != "" {
      assert s[|s| - 1..] == [s[|s| - 1]];
    }
    if HasSuffix(s, "ch") {
      LastByte(s, "ch");
    } else if HasSuffix(s, "sh") {
      LastByte(s, "sh");
    }
  }

  // How each kind of name is pluralized, on those last bytes.
  lemma PluralOf(s: string)
    ensures ConsonantY(s) ==> s != "" && s[|s| - 1] == 'y' && Pluralize(s) == s[..|s| - 1] + "ies"
    ensures Sibilant(s) ==> s != "" && s[|s| - 1] in "sxzh" && Pluralize(s) == s + "es"
    ensures s != "" && s[|s| - 1] == 'e' ==> Pluralize(s) == s + "s"
  {
    Endings(s);
  }

  lemma Regroup(x: string, y: string, z: string, yz: string)
    requires y + z == yz
    ensures (x + y) + z == x + yz
  {
    Reassociate(x, y, z);
  }

  lemma SibilantPair(a: string, b: string)
    requires Sibilant(a) && b == a + "e"
    ensures Pluralize(a) == Pluralize(b)
    ensures a != "" && a[|a| - 1] != 'e' && b != "" && b[|b| - 1] == 'e'
  {
    PluralOf(a);
    PluralOf(b);
    Regroup(a, "e", "s", "es");
  }

  lemma ConsonantYPair(a: string, b: string)
    requires ConsonantY(a) && b == a[..|a| - 1] + "ie"
    ensures Pluralize(a) == Pluralize(b)
    ensures a != "" && a[|a| - 1] != 'e' && b != "" && b[|b| - 1] == 'e'
  {
    PluralOf(a);
    PluralOf(b);
    Regroup(a[..|a| - 1], "ie", "s", "ies");
  }

  // The second of a pair ends in "e" and the first does not.
  lemma PairSharesPlural(a: string, b: string)
    requires PluralPair(a, b)
    ensures Pluralize(a) == Pluralize(b) && a != b
    ensures a != "" && b != "" && a[|a| - 1] != 'e' && b[|b| - 1] == 'e'
  {
    if Sibilant(a) && b == a + "e" {
      SibilantPair(a, b);
    } else {
      ConsonantYPair(a, b);
    }
  }

  lemma NoPairWithoutE(a: string, b: string)
    requires a != "" && b != "" && a[|a| - 1] != 'e' && b[|b| - 1] != 'e'
    ensures !PluralPair(a, b) && !PluralPair(b, a)
  {
    if PluralPair(a, b) {
      PairSharesPlural(a, b);
    } else if PluralPair(b, a) {
      PairSharesPlural(b, a);
    }
  }

  lemma PluralCollisionOfPair(a: string, b: string)
    requires PluralPair(a, b) || PluralPair(b, a)
    ensures Pluralize(a) == Pluralize(b)
  {
    if PluralPair(a, b) {
      PairSharesPlural(a, b);
    } else {
      PairSharesPlural(b, a);
    }
  }

  // Dropping a common ending of the two plurals.
  lemma DropLast(x: string, y: string, tail: string)
    requires x + tail == y + tail
    ensures x == y
  {
    assert (x + tail)[..|x|] == x && (y + tail)[..|y|] == y;
  }

  lemma SamePluralIsPair(a: string, b: string)
    requires a != b && Pluralize(a) == Pluralize(b)
    ensures PluralPair(a, b) || PluralPair(b, a)
  {
    if ConsonantY(a) {
      ConsonantYPartner(a, b);
    } else if ConsonantY(b) {
      ConsonantYPartner(b, a);
    } else if Sibilant(a) && Sibilant(b) {
      DropLast(a, b, "es");
    } else if Sibilant(a) {
      ExtraE(a, b);
    } else if Sibilant(b) {
      ExtraE(b, a);
    } else {
      DropLast(a, b, "s");
    }
  }

  lemma ConsonantYPartner(a: string, b: string)
    requires a != b && ConsonantY(a) && Pluralize(a) == Pluralize(b)
    ensures PluralPair(a, b)
  {
    var c := a[..|a| - 1];
    if ConsonantY(b) {
      DropLast(c, b[..|b| - 1], "ies");
      SplitY(a);
      SplitY(b);
    } else if Sibilant(b) {
      Endings(b);
      ExtraI(c, b);
    } else {
      ExtraIe(c, b);
    }
  }

  lemma SplitY(a: string)
    requires ConsonantY(a)
    ensures a == a[..|a| - 1] + "y"
  {
  }

  lemma ExtraI(c: string, b: string)
    requires c + "ies" == b + "es"
    ensures b != "" && b[|b| - 1] == 'i'
  {
    assert c + "ies" == (c + "i") + "es";
    DropLast(c + "i", b, "es");
  }

  lemma ExtraIe(c: string, b: string)
    requires c + "ies" == b + "s"
    ensures b == c + "ie"
  {
    assert c + "ies" == (c + "ie") + "s";
    DropLast(c + "ie", b, "s");
  }

  lemma ExtraE(a: string, b: string)
    requires a + "es" == b + "s"
    ensures b == a + "e"
  {
    assert a + "es" == (a + "e") + "s";
    DropLast(a + "e", b, "s");
  }

  // Exactly which different names share a table.
  lemma PluralCollision(a: string, b: string)
    requires a != b
    ensures Pluralize(a) == Pluralize(b) <==> PluralPair(a, b) || PluralPair(b, a)
  {
    if Pluralize(a) == Pluralize(b) {
      SamePluralIsPair(a, b);
    } else if PluralPair(a, b) {
      PairSharesPlural(a, b);
    } else if PluralPair(b, a) {
      PairSharesPlural(b, a);
    }
  }

  // In a pair exactly one of the two names ends in "e".
  lemma OneEndsInE(a: string, b: string)
    requires PluralPair(a, b) || PluralPair(b, a)
    ensures a != "" && b != "" && (a[|a| - 1] == 'e' <==> b[|b| - 1] != 'e')
  {
    if PluralPair(a, b) {
      PairSharesPlural(a, b);
    } else {
      PairSharesPlural(b, a);
    }
  }

  // So no third name joins them.
  lemma AtMostTwoShareATable(a: string, b: string, c: string)
    requires a != b && b != c && a != c
    ensures !(Pluralize(a) == Pluralize(b) == Pluralize(c))
  {
    if Pluralize(a) == Pluralize(b) == Pluralize(c) {
      SamePluralIsPair(a, b);
      SamePluralIsPair(b, c);
      SamePluralIsPair(a, c);
      OneEndsInE(a, b);
      OneEndsInE(b, c);
      OneEndsInE(a, c);
    }
  }
}
