/**
 * Author names and ADS's name-matching rules (ads_name.py).
 *
 * A name is decomposed into a last name and optional first and middle parts,
 * each of which is either a full name or an initial.  A leading `=`, `<` or
 * `>` on the last name switches on exact matching or a specificity filter.
 * An `ADSName` is never changed after its constructor has run, so it is a
 * value here; `Create` is the constructor.
 */
module AdsName {

  import opened Wrappers
  import opened PyStr

  /** One given-name part as `_get_first_name_data` returns it: `(name, initial)`. */
  datatype Part = Part(name: Option<string>, initial: Option<char>)

  const NoPart := Part(None, None)

  datatype ADSName = ADSName(
    lastName: string,
    first: Part,
    middle: Part,
    exact: bool,
    excludeLessSpecific: bool,
    excludeMoreSpecific: bool,
    originalName: string)

  /** Why the constructor raises. */
  datatype NameError =
    | MiddleWithoutFirst   // ValueError: middle name without first name
    | BlankGivenName       // IndexError: text after the comma is only whitespace

  /** A token of length 1, or of length 2 ending in '.', is an initial. */
  predicate IsInitialShape(t: string) {
    |t| == 1 || (|t| == 2 && t[1] == '.')
  }

  /** `_set_first_name_or_initial` / `_set_middle_name_or_initial`. */
  function NameOrInitial(t: string): (p: Part)
    ensures p.name.Some? != p.initial.Some?
    ensures p.initial.Some? <==> IsInitialShape(t)
    ensures p.initial.Some? ==> p.initial.value == Lower(t[0])
    ensures p.name.Some? ==> p.name.value == LowerStr(t)
  {
    if IsInitialShape(t) then Part(None, Some(Lower(t[0]))) else Part(Some(LowerStr(t)), None)
  }

  predicate IsModifier(c: char) {
    c == '=' || c == '<' || c == '>'
  }

  /** The modifier characters `__str__` puts in front of the full name, '=' outermost. */
  function ModifierPrefix(n: ADSName): string {
    (if n.exact then "=" else "") +
    (if n.excludeMoreSpecific then "<" else "") +
    (if n.excludeLessSpecific then ">" else "")
  }

  predicate AtMostOneModifier(n: ADSName) {
    !(n.exact && n.excludeMoreSpecific) && !(n.exact && n.excludeLessSpecific) &&
    !(n.excludeMoreSpecific && n.excludeLessSpecific)
  }

  /**
   * The modifier handling at the end of the constructor: a last name longer
   * than one character that starts with a modifier loses it and sets the flag.
   */
  function WithModifier(last: string, first: Part, middle: Part, original: string): (n: ADSName)
    ensures AtMostOneModifier(n)
    ensures ModifierPrefix(n) + n.lastName == last
    ensures ModifierPrefix(n) != "" <==> |last| > 1 && IsModifier(last[0])
    ensures n.first == first && n.middle == middle && n.originalName == original
  {
    if |last| > 1 && last[0] == '=' then ADSName(last[1..], first, middle, true, false, false, original)
    else if |last| > 1 && last[0] == '<' then ADSName(last[1..], first, middle, false, false, true, original)
    else if |last| > 1 && last[0] == '>' then ADSName(last[1..], first, middle, false, true, false, original)
    else ADSName(last, first, middle, false, false, false, original)
  }

  /** A part holds a name or an initial, never both. */
  predicate PartWellFormed(p: Part) {
    !(p.name.Some? && p.initial.Some?)
  }

  /** What every constructed name satisfies. */
  predicate WellFormed(n: ADSName) {
    PartWellFormed(n.first) && PartWellFormed(n.middle) &&
    (n.middle != NoPart ==> n.first != NoPart) &&
    AtMostOneModifier(n)
  }

  /** The text after the first comma is present but only whitespace. */
  predicate BlankGiven(s: string) {
    var parts := SplitOnce(s, ',');
    |parts| > 1 && |parts[1]| > 0 && NoneButSpace(parts[1])
  }

  /**
   * `ADSName(last_name, first_name, middle_name)`: either one string
   * "Last, First Middle" or the parts given separately.
   */
  function Create(last: string, first: Option<string>, middle: Option<string>): (r: Result<ADSName, NameError>)
    ensures r.Err? <==> first.None? && (middle.Some? || BlankGiven(last))
    ensures r == Err(MiddleWithoutFirst) <==> first.None? && middle.Some?
    ensures r.Ok? ==> WellFormed(r.value)
    ensures r.Ok? && first.None? ==> r.value.originalName == last
  {
    if first.None? then
      if middle.Some? then Err(MiddleWithoutFirst)
      else
        var parts := SplitOnce(last, ',');
        if |parts| > 1 && |parts[1]| > 0 then
          var given := SplitWsOnce(parts[1]);
          if given == [] then Err(BlankGivenName)
          else
            var m := if |given| > 1 then NameOrInitial(given[1]) else NoPart;
            Ok(WithModifier(LowerStr(parts[0]), NameOrInitial(given[0]), m, last))
        else Ok(WithModifier(LowerStr(parts[0]), NoPart, NoPart, last))
    else
      var original := last + ", " + first.value + (if middle.Some? then " " + middle.value else "");
      var m := if middle.Some? then NameOrInitial(middle.value) else NoPart;
      Ok(WithModifier(LowerStr(last), NameOrInitial(first.value), m, original))
  }

  /** `ADSName.parse(s)`, which callers use; it is the one-string constructor. */
  function Parse(s: string): Result<ADSName, NameError> {
    Create(s, None, None)
  }

  // ---------------------------------------------------------------------
  // Comparison

  /** `level_of_detail`: 100 for the last name, 20/10 for a first name/initial, 2/1 for a middle name/initial. */
  function LevelOfDetail(n: ADSName): (r: int)
    ensures 100 <= r <= 133
  {
    100 +
    (if n.first.name.Some? then 20 else 0) + (if n.first.initial.Some? then 10 else 0) +
    (if n.middle.name.Some? then 2 else 0) + (if n.middle.initial.Some? then 1 else 0)
  }

  /** `_name_data_are_equal`: a missing part matches anything; a name matches an initial it starts with. */
  function PartsMatch(a: Part, b: Part): bool {
    if a == NoPart || b == NoPart then true
    else if a.name.Some? && b.name.Some? then a.name == b.name
    else if a.initial.Some? && b.initial.Some? then a.initial == b.initial
    else
      var name := if a.name.Some? then a.name.value else b.name.value;
      var initial := if a.initial.Some? then a.initial.value else b.initial.value;
      StartsWith(name, [initial])
  }

  /** `__eq__` between two names. */
  function Equals(a: ADSName, b: ADSName): bool {
    if a.exact || b.exact then
      a.lastName == b.lastName && a.first == b.first && a.middle == b.middle
    else if (a.excludeMoreSpecific || b.excludeLessSpecific) && LevelOfDetail(a) < LevelOfDetail(b) then false
    else if (a.excludeLessSpecific || b.excludeMoreSpecific) && LevelOfDetail(a) > LevelOfDetail(b) then false
    else a.lastName == b.lastName && PartsMatch(a.first, b.first) && PartsMatch(a.middle, b.middle)
  }

  /** `__eq__` against a string, which is parsed first; `None` where the parse raises. */
  function EqualsText(a: ADSName, s: string): (r: Option<bool>)
    ensures r.None? <==> Parse(s).Err?
    ensures r.Some? ==> r.value == Equals(a, Parse(s).value)
  {
    match Parse(s)
    case Ok(b) => Some(Equals(a, b))
    case Err(_) => None
  }

  // ---------------------------------------------------------------------
  // Rendering

  /** One part as `full_name` appends it: the name, or the initial and a dot. */
  function PartText(sep: string, p: Part): string {
    (if p.name.Some? then sep + p.name.value else "") +
    (if p.initial.Some? then sep + [p.initial.value] + "." else "")
  }

  /** `full_name`: "last, first middle" with initials written "x.". */
  function FullName(n: ADSName): string {
    n.lastName + PartText(", ", n.first) + PartText(" ", n.middle)
  }

  /** `__str__` (and `__repr__`): the full name behind the modifiers. */
  function Str(n: ADSName): (r: string)
    ensures |r| >= |FullName(n)| && r[|r| - |FullName(n)|..] == FullName(n)
  {
    ModifierPrefix(n) + FullName(n)
  }

  /**
   * For a constructed name `str` is the full name alone exactly when no
   * flag is set, and otherwise the full name behind the one character
   * that sets the flag.
   */
  lemma StrModifiers(n: ADSName)
    requires AtMostOneModifier(n)
    ensures Str(n) == FullName(n) <==> Plain(n)
    ensures !Plain(n) ==> Str(n) == [if n.exact then '=' else if n.excludeMoreSpecific then '<' else '>'] + FullName(n)
  {
  }

  /**
   * `bare_original_name`: the original text without a leading modifier
   * character; `None` where the original text is empty and indexing it
   * raises IndexError.
   */
  function BareOriginalName(n: ADSName): (r: Option<string>)
    ensures r.None? <==> n.originalName == []
    ensures r.Some? && IsModifier(n.originalName[0]) ==> [n.originalName[0]] + r.value == n.originalName
    ensures r.Some? && !IsModifier(n.originalName[0]) ==> r.value == n.originalName
  {
    if n.originalName == [] then None
    else if IsModifier(n.originalName[0]) then Some(n.originalName[1..])
    else Some(n.originalName)
  }

  // ---------------------------------------------------------------------
  // Properties of the constructor

  /** The one-string form equals the separate-parts form (tests/test_ads_name.py:72-86). */
  lemma OneStringMatchesParts(last: string, first: string, middle: Option<string>)
    requires ',' !in last
    requires first != [] && NoSpace(first)
    requires middle.Some? ==> middle.value != [] && !IsSpace(middle.value[0])
    ensures Parse(last + ", " + first + (if middle.Some? then " " + middle.value else "")) ==
            Create(last, Some(first), middle)
  {
    var tail := if middle.Some? then " " + middle.value else "";
    var s := last + ", " + first + tail;
    assert s == last + [','] + (" " + first + tail);
    ParseCommaGiven(last, first, tail);
    if middle.Some? {
      assert tail[1..] == middle.value;
    }
  }

  /**
   * The one-string form field by field, for text cut at its first comma into
   * `head` and `tail` and the tail cut as `split(maxsplit=1)` sees it: the
   * lower-cased head is the last name, the first token is the first part and
   * the rest of the tail the middle part; a tail of only whitespace raises
   * and an empty tail leaves both parts out.
   */
  lemma ParseOfParts(head: string, tail: string, w1: string, g: string, w2: string, m: string)
    requires ',' !in head && WsSplit(tail, w1, g, w2, m)
    ensures var s := head + [','] + tail;
            Parse(s) == if g != [] then Ok(WithModifier(LowerStr(head), NameOrInitial(g), if m == [] then NoPart else NameOrInitial(m), s))
                        else if tail == [] then Ok(WithModifier(LowerStr(head), NoPart, NoPart, s))
                        else Err(BlankGivenName)
  {
    SplitOnceAt(head, ',', tail);
    if g != [] {
      SplitWsOnceOf(w1, g, w2, m);
    }
  }

  /**
   * Every one-string input falls under one of the cases: without a comma the
   * whole text, lower-cased, is the last name; with one, `ParseOfParts`
   * applies to the cut this lemma returns.
   */
  lemma ParseOneString(s: string) returns (head: string, tail: string, w1: string, g: string, w2: string, m: string)
    ensures ',' !in s ==> Parse(s) == Ok(WithModifier(LowerStr(s), NoPart, NoPart, s))
    ensures ',' in s ==> s == head + [','] + tail && ',' !in head && WsSplit(tail, w1, g, w2, m)
    ensures ',' in s ==>
              Parse(s) == if g != [] then Ok(WithModifier(LowerStr(head), NameOrInitial(g), if m == [] then NoPart else NameOrInitial(m), s))
                          else if tail == [] then Ok(WithModifier(LowerStr(head), NoPart, NoPart, s))
                          else Err(BlankGivenName)
  {
    var parts := SplitOnce(s, ',');
    head := parts[0];
    tail := if |parts| > 1 then parts[1] else [];
    w1, g, w2, m := WsSplitOf(tail);
    if ',' in s {
      ParseOfParts(head, tail, w1, g, w2, m);
    } else {
      ParseNoComma(s);
    }
  }

  lemma ParseNoComma(s: string)
    requires ',' !in s
    ensures Parse(s) == Ok(WithModifier(LowerStr(s), NoPart, NoPart, s))
  {
    assert SplitOnce(s, ',') == [s];
  }

  /**
   * A given-name token is read without regard to case, "J" and "J." give the
   * same initial, and `full_name` writes the part back as the lower-case
   * token, an initial always with its dot.
   */
  lemma PartOfToken(sep: string, t: string)
    ensures NameOrInitial(t) == NameOrInitial(LowerStr(t))
    ensures |t| == 1 ==> NameOrInitial(t) == NameOrInitial(t + ".")
    ensures PartText(sep, NameOrInitial(t)) ==
              if IsInitialShape(t) then sep + [Lower(t[0])] + "." else sep + LowerStr(t)
  {
    var l := LowerStr(t);
    assert IsInitialShape(l) == IsInitialShape(t);
    if !IsInitialShape(t) {
      LowerIdempotent(t);
      LowerStrOfLowered(l);
    }
  }

  // ---------------------------------------------------------------------
  // Properties of equality

  lemma EqualsSymmetric(a: ADSName, b: ADSName)
    ensures Equals(a, b) == Equals(b, a)
  {
  }

  lemma EqualsReflexive(a: ADSName)
    ensures Equals(a, a)
  {
  }

  /** If either side is exact, equality needs the last name and both parts identical. */
  lemma ExactNeedsIdentical(a: ADSName, b: ADSName)
    requires a.exact || b.exact
    ensures Equals(a, b) <==> a.lastName == b.lastName && a.first == b.first && a.middle == b.middle
  {
  }

  predicate Plain(n: ADSName) {
    !n.exact && !n.excludeLessSpecific && !n.excludeMoreSpecific
  }

  /** A bare last name matches every plain name with that last name. */
  lemma MissingPartsMatchAnything(a: ADSName, b: ADSName)
    requires Plain(a) && Plain(b)
    requires b.first == NoPart && b.middle == NoPart
    ensures Equals(a, b) <==> a.lastName == b.lastName
  {
  }

  /** A first name matches exactly the first initials it starts with. */
  lemma NameMatchesItsInitial(a: ADSName, b: ADSName, name: string, initial: char)
    requires Plain(a) && Plain(b) && a.lastName == b.lastName
    requires a.first == Part(Some(name), None) && b.first == Part(None, Some(initial))
    requires a.middle == NoPart && b.middle == NoPart
    ensures Equals(a, b) <==> name != [] && name[0] == initial
  {
  }

  /** With '<' on `a` (or '>' on `b`), `a` never equals a more detailed `b`. */
  lemma ExcludeMoreSpecific(a: ADSName, b: ADSName)
    requires !a.exact && !b.exact
    requires a.excludeMoreSpecific || b.excludeLessSpecific
    requires LevelOfDetail(a) < LevelOfDetail(b)
    ensures !Equals(a, b)
  {
  }

  /** With '>' on `a` (or '<' on `b`), `a` never equals a less detailed `b`. */
  lemma ExcludeLessSpecific(a: ADSName, b: ADSName)
    requires !a.exact && !b.exact
    requires a.excludeLessSpecific || b.excludeMoreSpecific
    requires LevelOfDetail(a) > LevelOfDetail(b)
    ensures !Equals(a, b)
  {
  }

  /** A plain lower-case surname: no comma, no modifier in front. */
  predicate PlainSurname(l: string) {
    ',' !in l && IsLowered(l) && (l == [] || !IsModifier(l[0]))
  }

  lemma ParseSurname(l: string)
    requires PlainSurname(l)
    ensures Parse(l) == Ok(ADSName(l, NoPart, NoPart, false, false, false, l))
  {
    LowerStrOfLowered(l);
  }

  lemma ParseSurnameAndToken(l: string, t: string)
    requires PlainSurname(l)
    requires t != [] && NoSpace(t)
    ensures Parse(l + ", " + t) == Ok(ADSName(l, NameOrInitial(t), NoPart, false, false, false, l + ", " + t))
  {
    assert l + ", " + t == l + [','] + (" " + t + []);
    ParseCommaGiven(l, t, []);
    LowerStrOfLowered(l);
  }

  /** A lower-case letter alone is read as that initial. */
  lemma LetterToken(x: char)
    requires 'a' <= x <= 'z'
    ensures NoSpace([x]) && NameOrInitial([x]) == Part(None, Some(x))
  {
  }

  /** A lower-case letter and a dot are read as that initial. */
  lemma LetterDotToken(y: char, t: string)
    requires 'a' <= y <= 'z' && t == [y] + "."
    ensures NoSpace(t) && NameOrInitial(t) == Part(None, Some(y))
  {
    assert t[0] == y && t[1] == '.';
  }

  /**
   * Equality is not transitive: "murray, e" equals "murray", which equals
   * "murray, s.", but "murray, e" does not equal "murray, s."
   * (tests/test_ads_name.py:17-24), and likewise for any surname and any two
   * different initials.
   */
  lemma NotTransitive(l: string, x: char, y: char)
    requires PlainSurname(l)
    requires 'a' <= x <= 'z' && 'a' <= y <= 'z' && x != y
    ensures Parse(l + ", " + [x]).Ok? && Parse(l).Ok? && Parse(l + ", " + [y] + ".").Ok?
    ensures Equals(Parse(l + ", " + [x]).value, Parse(l).value)
    ensures Equals(Parse(l).value, Parse(l + ", " + [y] + ".").value)
    ensures !Equals(Parse(l + ", " + [x]).value, Parse(l + ", " + [y] + ".").value)
  {
    ParseInitials(l, x, y);
    ParseSurname(l);
  }

  lemma ParseInitials(l: string, x: char, y: char)
    requires PlainSurname(l)
    requires 'a' <= x <= 'z' && 'a' <= y <= 'z'
    ensures Parse(l + ", " + [x]) == Ok(ADSName(l, Part(None, Some(x)), NoPart, false, false, false, l + ", " + [x]))
    ensures Parse(l + ", " + [y] + ".") == Ok(ADSName(l, Part(None, Some(y)), NoPart, false, false, false, l + ", " + [y] + "."))
  {
    ParseInitial(l, x);
    ParseInitialDot(l, y);
  }

  lemma ParseInitial(l: string, x: char)
    requires PlainSurname(l) && 'a' <= x <= 'z'
    ensures Parse(l + ", " + [x]) == Ok(ADSName(l, Part(None, Some(x)), NoPart, false, false, false, l + ", " + [x]))
  {
    LetterToken(x);
    ParseSurnameAndToken(l, [x]);
  }

  lemma ParseInitialDot(l: string, y: char)
    requires PlainSurname(l) && 'a' <= y <= 'z'
    ensures Parse(l + ", " + [y] + ".") == Ok(ADSName(l, Part(None, Some(y)), NoPart, false, false, false, l + ", " + [y] + "."))
  {
    var t := [y] + ".";
    LetterDotToken(y, t);
    ParseSurnameAndToken(l, t);
    assert l + ", " + [y] + "." == l + ", " + t;
  }

  /** The level of detail told apart by which parts are present. */
  lemma LevelShowsParts(a: ADSName, b: ADSName)
    requires PartWellFormed(a.first) && PartWellFormed(a.middle)
    requires PartWellFormed(b.first) && PartWellFormed(b.middle)
    ensures LevelOfDetail(a) == LevelOfDetail(b) <==>
      (a.first.name.Some? == b.first.name.Some? && a.first.initial.Some? == b.first.initial.Some? &&
       a.middle.name.Some? == b.middle.name.Some? && a.middle.initial.Some? == b.middle.initial.Some?)
  {
  }

  // ---------------------------------------------------------------------
  // Rendering round trip

  /** A part `full_name` writes out so that parsing reads it back unchanged. */
  predicate CanonicalPart(p: Part) {
    PartWellFormed(p) &&
    (p.name.Some? ==> var t := p.name.value; t != [] && NoSpace(t) && IsLowered(t) && !IsInitialShape(t)) &&
    (p.initial.Some? ==> !IsSpace(p.initial.value) && Lower(p.initial.value) == p.initial.value)
  }

  /** A middle name may hold spaces: the one-string form keeps everything after the first token. */
  predicate CanonicalMiddle(p: Part) {
    PartWellFormed(p) &&
    (p.name.Some? ==> var t := p.name.value; t != [] && !IsSpace(t[0]) && IsLowered(t) && !IsInitialShape(t)) &&
    (p.initial.Some? ==> !IsSpace(p.initial.value) && Lower(p.initial.value) == p.initial.value)
  }

  /** Lower-case names whose rendering parses back to the same components. */
  predicate Canonical(n: ADSName) {
    WellFormed(n) && CanonicalPart(n.first) && CanonicalMiddle(n.middle) &&
    ',' !in n.lastName && IsLowered(n.lastName) &&
    (ModifierPrefix(n) == "" ==> n.lastName == [] || !IsModifier(n.lastName[0])) &&
    (ModifierPrefix(n) != "" ==> n.lastName != [])
  }

  /** The token `full_name` writes for a part. */
  function Token(p: Part): string
    requires PartWellFormed(p) && p != NoPart
  {
    if p.name.Some? then p.name.value else [p.initial.value] + "."
  }

  lemma TokenParsesBack(p: Part)
    requires CanonicalMiddle(p) && p != NoPart
    ensures Token(p) != [] && !IsSpace(Token(p)[0])
    ensures NameOrInitial(Token(p)) == p
  {
    if p.name.Some? {
      LowerStrOfLowered(p.name.value);
    }
  }

  /** `repr` round-trips: parsing the rendering of a canonical name gives it back (tests/test_ads_name.py:65-70). */
  lemma StrRoundTrip(n: ADSName)
    requires Canonical(n)
    ensures Parse(Str(n)) == Ok(n.(originalName := Str(n)))
  {
    var head := ModifierPrefix(n) + n.lastName;
    assert ',' !in head;
    assert IsLowered(head);
    LowerStrOfLowered(head);
    if n.first == NoPart {
      SurnameRoundTrip(n, head);
    } else {
      GivenRoundTrip(n, head);
    }
  }

  /** Re-applying the modifier handling to a rendered prefix and surname restores the flags. */
  lemma WithModifierOfPrefix(n: ADSName, original: string)
    requires AtMostOneModifier(n)
    requires ModifierPrefix(n) == "" ==> n.lastName == [] || !IsModifier(n.lastName[0]) || |n.lastName| == 1
    requires ModifierPrefix(n) != "" ==> n.lastName != []
    ensures WithModifier(ModifierPrefix(n) + n.lastName, n.first, n.middle, original) == n.(originalName := original)
  {
    var last := ModifierPrefix(n) + n.lastName;
    if n.exact {
      assert last == "=" + n.lastName;
    } else if n.excludeMoreSpecific {
      assert last == "<" + n.lastName;
    } else if n.excludeLessSpecific {
      assert last == ">" + n.lastName;
    } else {
      assert last == n.lastName;
    }
  }

  /** `str` of a name with a first part, cut at its first comma. */
  lemma StrShape(n: ADSName) returns (g: string, tail: string)
    requires CanonicalPart(n.first) && CanonicalMiddle(n.middle) && n.first != NoPart
    ensures g == Token(n.first)
    ensures tail == if n.middle == NoPart then "" else " " + Token(n.middle)
    ensures Str(n) == (ModifierPrefix(n) + n.lastName) + [','] + (" " + g + tail)
  {
    g := Token(n.first);
    tail := if n.middle == NoPart then "" else " " + Token(n.middle);
    assert PartText(", ", n.first) == ", " + g;
    assert PartText(" ", n.middle) == tail;
    CommaShape(ModifierPrefix(n), n.lastName, g, tail);
  }

  lemma CommaShape(pre: string, last: string, g: string, tail: string)
    ensures pre + (last + (", " + g) + tail) == (pre + last) + [','] + (" " + g + tail)
  {
    assert ", " + g == [','] + (" " + g);
  }


  lemma SurnameRoundTrip(n: ADSName, head: string)
    requires Canonical(n) && n.first == NoPart
    requires head == ModifierPrefix(n) + n.lastName && ',' !in head && LowerStr(head) == head
    ensures Parse(Str(n)) == Ok(n.(originalName := Str(n)))
  {
    assert Str(n) == head;
    assert IndexOf(head, ',') == None;
    WithModifierOfPrefix(n, head);
  }

  lemma GivenRoundTrip(n: ADSName, head: string)
    requires Canonical(n) && n.first != NoPart
    requires head == ModifierPrefix(n) + n.lastName && ',' !in head && LowerStr(head) == head
    ensures Parse(Str(n)) == Ok(n.(originalName := Str(n)))
  {
    var g, tail := StrShape(n);
    TokenParsesBack(n.first);
    if n.middle != NoPart {
      TokenParsesBack(n.middle);
      assert tail[1..] == Token(n.middle);
    }
    ParseCommaGiven(head, g, tail);
    WithModifierOfPrefix(n, Str(n));
  }

  /** Text "head, given tail" parses with the given token as first part and the rest of the tail as middle. */
  lemma ParseCommaGiven(head: string, g: string, tail: string)
    requires ',' !in head && g != [] && NoSpace(g)
    requires tail == [] || (|tail| >= 2 && tail[0] == ' ' && !IsSpace(tail[1]))
    ensures var s := head + [','] + (" " + g + tail);
            Parse(s) == Ok(WithModifier(LowerStr(head), NameOrInitial(g),
                                        if tail == [] then NoPart else NameOrInitial(tail[1..]), s))
  {
    var w2: string := if tail == [] then [] else [' '];
    var m := if tail == [] then [] else tail[1..];
    assert " " + g + tail == " " + g + w2 + m;
    ParseOfParts(head, " " + g + tail, " ", g, w2, m);
  }
}
