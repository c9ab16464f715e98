/** The directory-name sanitiser that site.rb applies inline to every category and
    audioformat name before joining it to an output directory:

        name.gsub(/_|\P{Word}/, '-').gsub(/-{2,}/, '-').downcase

    It is modelled as three passes over a string: Dashify, Collapse, Downcase. */
module Slug {

  /** The two Unicode facts the sanitiser depends on, taken as parameters:
      `isWord` is the class Ruby's \p{Word} matches (letters, marks, digits and
      connector punctuation) and `lower` is `downcase` on one character. */
  datatype Chars = Chars(isWord: char -> bool, lower: char -> char)

  /** What the slug properties need of the two: '_' is a word character and '-'
      is not; lower-casing neither creates nor removes a '-' or a '_', keeps word
      characters word characters, and changes nothing when applied twice. */
  predicate ValidChars(cs: Chars) {
    && cs.isWord('_') && !cs.isWord('-')
    && (forall c :: cs.lower(c) == '-' <==> c == '-')
    && (forall c :: cs.lower(c) == '_' <==> c == '_')
    && (forall c {:trigger cs.isWord(cs.lower(c))} :: cs.isWord(c) ==> cs.isWord(cs.lower(c)))
    && (forall c {:trigger cs.lower(cs.lower(c))} :: cs.lower(cs.lower(c)) == cs.lower(c))
  }

  /** An ASCII word character: a letter, a digit or '_'. */
  predicate IsAsciiWord(c: char) {
    'a' <= c <= 'z' || 'A' <= c <= 'Z' || '0' <= c <= '9' || c == '_'
  }

  /** `downcase` on ASCII: A-Z become a-z. */
  function AsciiLower(c: char): char {
    if 'A' <= c <= 'Z' then (c as int + 32) as char else c
  }

  /** On ASCII input, \p{Word} and `downcase` behave as IsAsciiWord and AsciiLower. */
  predicate AsciiExact(cs: Chars) {
    forall c: char :: c as int < 128 ==> (cs.isWord(c) <==> IsAsciiWord(c)) && cs.lower(c) == AsciiLower(c)
  }

  /** The ASCII-only class: every character outside ASCII counts as a non-word
      character and is left alone by lower-casing. */
  const AsciiChars: Chars := Chars(c => IsAsciiWord(c), c => AsciiLower(c))

  /** The requirements can be met, and the ASCII-only class meets them. */
  lemma AsciiCharsValid()
    ensures ValidChars(AsciiChars) && AsciiExact(AsciiChars)
  {
    forall c ensures AsciiChars.isWord(c) ==> AsciiChars.isWord(AsciiChars.lower(c)) {
    }
  }

  /** First pass: every '_' and every non-word character becomes '-'. */
  function Dashify(s: string, cs: Chars): string {
    if s == [] then []
    else [if s[0] == '_' || !cs.isWord(s[0]) then '-' else s[0]] + Dashify(s[1..], cs)
  }

  /** Second pass, gsub(/-{2,}/, '-'): every run of dashes shrinks to one dash.
      A dash is dropped exactly when the next character is a dash too. */
  function Collapse(s: string): (r: string)
    decreases |s|
  {
    if |s| <= 1 then s
    else if s[0] == '-' && s[1] == '-' then Collapse(s[1..])
    else [s[0]] + Collapse(s[1..])
  }

  /** Third pass, `downcase`. */
  function Downcase(s: string, cs: Chars): string {
    if s == [] then [] else [cs.lower(s[0])] + Downcase(s[1..], cs)
  }

  /** The slug of a name, as used for a category or audioformat directory. */
  function Slugify(name: string, cs: Chars): string {
    Downcase(Collapse(Dashify(name, cs)), cs)
  }

  /** Dashify works character by character: '_' and non-word characters become '-',
      everything else is kept, and the length does not change. */
  lemma {:induction false} DashifyAt(s: string, cs: Chars)
    ensures |Dashify(s, cs)| == |s|
    ensures forall i :: 0 <= i < |s| ==>
      Dashify(s, cs)[i] == (if s[i] == '_' || !cs.isWord(s[i]) then '-' else s[i])
  {
    if s != [] {
      DashifyAt(s[1..], cs);
    }
  }

  /** Downcase works character by character and keeps the length. */
  lemma {:induction false} DowncaseAt(s: string, cs: Chars)
    ensures |Downcase(s, cs)| == |s|
    ensures forall i :: 0 <= i < |s| ==> Downcase(s, cs)[i] == cs.lower(s[i])
  {
    if s != [] {
      DowncaseAt(s[1..], cs);
    }
  }

  /** No two dashes stand next to each other. */
  predicate NoDoubleDash(s: string) {
    forall i :: 0 <= i < |s| - 1 ==> !(s[i] == '-' && s[i + 1] == '-')
  }

  /** Every character is a dash or a word character other than '_'. */
  predicate DashOrWord(s: string, cs: Chars) {
    forall i :: 0 <= i < |s| ==> s[i] == '-' || (cs.isWord(s[i]) && s[i] != '_')
  }

  /** The shape every slug has: dashes and word characters other than '_', no
      "--", and nothing that lower-casing would change. */
  predicate IsSlug(s: string, cs: Chars) {
    DashOrWord(s, cs) && NoDoubleDash(s) && forall i :: 0 <= i < |s| ==> cs.lower(s[i]) == s[i]
  }

  /** The characters of `s` that are not dashes, in order. */
  function NonDashes(s: string): string
  {
    if s == [] then [] else (if s[0] == '-' then [] else [s[0]]) + NonDashes(s[1..])
  }

  /** Collapse keeps the first character. */
  lemma {:induction false} CollapseHead(s: string)
    requires |s| > 0
    ensures |Collapse(s)| > 0 && Collapse(s)[0] == s[0]
    decreases |s|
  {
    if |s| > 1 && s[0] == '-' && s[1] == '-' {
      CollapseHead(s[1..]);
    }
  }

  /** Collapse only drops characters: each output character occurs in the input. */
  lemma {:induction false} CollapseSubset(s: string)
    ensures |Collapse(s)| <= |s|
    ensures forall i :: 0 <= i < |Collapse(s)| ==> Collapse(s)[i] in s
    decreases |s|
  {
    if |s| > 1 {
      CollapseSubset(s[1..]);
      var t := Collapse(s[1..]);
      forall i | 0 <= i < |Collapse(s)| ensures Collapse(s)[i] in s {
        if !(s[0] == '-' && s[1] == '-') && i > 0 {
          assert Collapse(s)[i] == t[i - 1];
        }
        assert forall c :: c in s[1..] ==> c in s;
      }
    }
  }

  /** After Collapse no run of two or more dashes is left. */
  lemma {:induction false} CollapseNoDoubleDash(s: string)
    ensures NoDoubleDash(Collapse(s))
    decreases |s|
  {
    if |s| > 1 {
      CollapseNoDoubleDash(s[1..]);
      CollapseHead(s[1..]);
      var t := Collapse(s[1..]);
      if !(s[0] == '-' && s[1] == '-') {
        var r := Collapse(s);
        assert r == [s[0]] + t;
        forall i | 0 <= i < |r| - 1 ensures !(r[i] == '-' && r[i + 1] == '-') {
          if i > 0 {
            assert r[i] == t[i - 1] && r[i + 1] == t[i];
          } else {
            assert r[1] == t[0] == s[1];
          }
        }
      }
    }
  }

  /** Collapse keeps every non-dash character, in order. */
  lemma {:induction false} CollapseKeepsNonDashes(s: string)
    ensures NonDashes(Collapse(s)) == NonDashes(s)
    decreases |s|
  {
    if |s| > 1 {
      CollapseKeepsNonDashes(s[1..]);
      if s[0] == '-' && s[1] == '-' {
        assert NonDashes(s) == NonDashes(s[1..]);
      } else {
        var t := Collapse(s[1..]);
        assert ([s[0]] + t)[1..] == t;
      }
    }
  }

  /** A string without "--" is left alone by Collapse. */
  lemma {:induction false} CollapseFixesNoDoubleDash(s: string)
    requires NoDoubleDash(s)
    ensures Collapse(s) == s
    decreases |s|
  {
    if |s| > 1 {
      assert !(s[0] == '-' && s[1] == '-');
      CollapseFixesNoDoubleDash(s[1..]);
      assert s == [s[0]] + s[1..];
    }
  }

  /** Every slug is free of '_', of characters lower-casing would change and of
      non-word characters other than '-', and contains no "--". */
  lemma SlugifyShape(name: string, cs: Chars)
    requires ValidChars(cs)
    ensures IsSlug(Slugify(name, cs), cs)
  {
    var d := Dashify(name, cs);
    DashifyAt(name, cs);
    var c := Collapse(d);
    CollapseSubset(d);
    CollapseNoDoubleDash(d);
    assert DashOrWord(c, cs) by {
      forall i | 0 <= i < |c| ensures c[i] == '-' || (cs.isWord(c[i]) && c[i] != '_') {
        var j :| 0 <= j < |d| && d[j] == c[i];
      }
    }
    var r := Downcase(c, cs);
    DowncaseAt(c, cs);
    assert NoDoubleDash(r) by {
      forall i | 0 <= i < |r| - 1 ensures !(r[i] == '-' && r[i + 1] == '-') {
        assert r[i] == cs.lower(c[i]) && r[i + 1] == cs.lower(c[i + 1]);
      }
    }
    forall i | 0 <= i < |r| ensures r[i] == '-' || (cs.isWord(r[i]) && r[i] != '_') {
      assert r[i] == cs.lower(c[i]);
    }
    forall i | 0 <= i < |r| ensures cs.lower(r[i]) == r[i] {
      assert r[i] == cs.lower(c[i]);
    }
  }

  /** A string of slug shape is its own slug. */
  lemma SlugifyFixesSlugs(s: string, cs: Chars)
    requires IsSlug(s, cs)
    ensures Slugify(s, cs) == s
  {
    DashifyAt(s, cs);
    assert Dashify(s, cs) == s;
    CollapseFixesNoDoubleDash(s);
    DowncaseAt(s, cs);
    assert Downcase(s, cs) == s;
  }

  /** Slugify is idempotent: a slug slugified again is unchanged. */
  lemma SlugifyIdempotent(name: string, cs: Chars)
    requires ValidChars(cs)
    ensures Slugify(Slugify(name, cs), cs) == Slugify(name, cs)
  {
    SlugifyShape(name, cs);
    SlugifyFixesSlugs(Slugify(name, cs), cs);
  }

  /** Dropping the first character keeps a string free of "--". */
  lemma NoDoubleDashTail(a: string)
    requires a != [] && NoDoubleDash(a)
    ensures NoDoubleDash(a[1..])
  {
    var rest := a[1..];
    forall i | 0 <= i < |rest| - 1 ensures !(rest[i] == '-' && rest[i + 1] == '-') {
      assert rest[i] == a[i + 1] && rest[i + 1] == a[i + 2];
    }
  }

  /** Collapse keeps a first character that does not start a "--". */
  lemma CollapseKeepsFirst(s: string)
    requires |s| > 1 && !(s[0] == '-' && s[1] == '-')
    ensures Collapse(s) == [s[0]] + Collapse(s[1..])
  {
  }

  /** A prefix without "--" whose junction with the rest is not "--" passes
      through Collapse untouched. */
  lemma {:induction false} CollapsePrefix(a: string, b: string)
    requires NoDoubleDash(a)
    requires a == [] || b == [] || a[|a| - 1] != '-' || b[0] != '-'
    ensures Collapse(a + b) == a + Collapse(b)
    decreases |a|
  {
    if a == [] {
      assert a + b == b;
    } else if |a + b| == 1 {
      assert b == [] && a + b == a;
    } else {
      var rest := a[1..];
      var s := a + b;
      assert Collapse(rest + b) == rest + Collapse(b) by {
        NoDoubleDashTail(a);
        assert rest != [] ==> rest[|rest| - 1] == a[|a| - 1];
        CollapsePrefix(rest, b);
      }
      assert Collapse(s) == [a[0]] + Collapse(rest + b) by {
        assert s[0] == a[0] && s[1..] == rest + b;
        if |a| == 1 {
          assert s[1] == b[0];
        } else {
          assert s[1] == a[1];
        }
        CollapseKeepsFirst(s);
      }
      assert a == [a[0]] + rest;
    }
  }

  /** A dash followed by a dash is dropped. */
  lemma CollapseDropsDash(s: string)
    requires |s| > 0 && s[0] == '-'
    ensures Collapse(['-'] + s) == Collapse(s)
  {
    assert (['-'] + s)[1..] == s;
  }

  /** Between two dash-free-run strings, a run of three dashes (the last one
      starting `b`) shrinks to one. */
  lemma CollapseDashRun(a: string, b: string)
    requires NoDoubleDash(a) && NoDoubleDash(b)
    requires a != [] && a[|a| - 1] != '-'
    requires b != [] && b[0] == '-'
    ensures Collapse(a + (['-'] + (['-'] + b))) == a + b
  {
    CollapsePrefix(a, ['-'] + (['-'] + b));
    CollapseDropsDash(['-'] + b);
    CollapseDropsDash(b);
    CollapseFixesNoDoubleDash(b);
  }

  /** "Rock & Roll" becomes "rock-roll": the blank-ampersand-blank run shrinks to
      one dash. Only the ASCII behaviour of the character class matters. */
  lemma SlugifyRockAndRoll(cs: Chars)
    requires AsciiExact(cs)
    ensures Slugify("Rock & Roll", cs) == "rock-roll"
  {
    var s := "Rock & Roll";
    var d := Dashify(s, cs);
    var roll := ['-', 'R', 'o', 'l', 'l'];
    var rock := ['R', 'o', 'c', 'k'];
    assert d == rock + (['-'] + (['-'] + roll)) by {
      DashifyAt(s, cs);
    }
    var c := Collapse(d);
    assert c == "Rock-Roll" by {
      CollapseDashRun(rock, roll);
    }
    assert Downcase(c, cs) == "rock-roll" by {
      DowncaseAt(c, cs);
    }
    assert Slugify(s, cs) == Downcase(c, cs);
  }

  /** "rock___roll" becomes "rock-roll" too: underscores are not kept. */
  lemma SlugifyUnderscores(cs: Chars)
    requires AsciiExact(cs)
    ensures Slugify("rock___roll", cs) == "rock-roll"
  {
    var s := "rock___roll";
    var d := Dashify(s, cs);
    var roll := ['-', 'r', 'o', 'l', 'l'];
    var rock := ['r', 'o', 'c', 'k'];
    assert d == rock + (['-'] + (['-'] + roll)) by {
      DashifyAt(s, cs);
    }
    var c := Collapse(d);
    assert c == "rock-roll" by {
      CollapseDashRun(rock, roll);
    }
    assert Downcase(c, cs) == "rock-roll" by {
      DowncaseAt(c, cs);
    }
    assert Slugify(s, cs) == Downcase(c, cs);
  }
}
