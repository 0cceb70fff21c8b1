/** to_camel_case: the alias generator of the record base class.

    The source chains three string operations and then lower-cases the first
    character:
      1. every maximal run of '_' or '-' becomes a single space (a regular
         expression substitution),
      2. the string is title-cased,
      3. every space is removed.
    `ToCamelCase` follows that chain step by step. `CamelWords` is an
    independent, position-based description of the same result, and
    `ToCamelCaseIsCamelWords` proves the two agree. Only ASCII letters are
    cased; every other character is left as it is. */
module StrUtils {
  import opened Wrappers

  predicate IsSeparator(c: char) { c == '_' || c == '-' }

  /** Characters that never reach the output. */
  predicate IsDropped(c: char) { IsSeparator(c) || c == ' ' }

  predicate IsUpper(c: char) { 'A' <= c <= 'Z' }

  predicate IsLower(c: char) { 'a' <= c <= 'z' }

  predicate IsCased(c: char) { IsUpper(c) || IsLower(c) }

  function Upper(c: char): char
  {
    if IsLower(c) then (c as int - 32) as char else c
  }

  function Lower(c: char): char
  {
    if IsUpper(c) then (c as int + 32) as char else c
  }

  // ---------------------------------------------------------------------
  // The chain as the source writes it

  /** Drops the run of separators at the front of `s`. */
  function DropSeparators(s: string): (r: string)
    ensures |r| <= |s|
    ensures r == s[|s| - |r|..]
    ensures r == [] || !IsSeparator(r[0])
  {
    if s != [] && IsSeparator(s[0]) then DropSeparators(s[1..]) else s
  }

  /** Step 1: each maximal run of '_' or '-' becomes one space. */
  function CollapseSeparators(s: string): string
    decreases |s|
  {
    if s == [] then []
    else if IsSeparator(s[0]) then " " + CollapseSeparators(DropSeparators(s[1..]))
    else [s[0]] + CollapseSeparators(s[1..])
  }

  /** Step 2: title-casing. A letter is upper-cased when the character before
      it is not a letter (or when it comes first and `previousIsCased` is
      false) and lower-cased otherwise. */
  function TitleFrom(s: string, previousIsCased: bool): (r: string)
    ensures |r| == |s|
  {
    if s == [] then []
    else [if previousIsCased then Lower(s[0]) else Upper(s[0])] + TitleFrom(s[1..], IsCased(s[0]))
  }

  /** Step 3: every space is removed. */
  function RemoveSpaces(s: string): string
  {
    if s == [] then []
    else (if s[0] == ' ' then [] else [s[0]]) + RemoveSpaces(s[1..])
  }

  /** to_camel_case. `None` stands for the IndexError the source raises when
      nothing is left after step 3. */
  function ToCamelCase(s: string): Option<string>
  {
    var ret := RemoveSpaces(TitleFrom(CollapseSeparators(s), false));
    if ret == [] then None else Some([Lower(ret[0])] + ret[1..])
  }

  // ---------------------------------------------------------------------
  // The reference description

  /** How the character at position `i` appears in the output when it is kept:
      upper-case at the start of a word, lower-case inside one. */
  function CasedAt(s: string, i: int): char
    requires 0 <= i < |s|
  {
    if i > 0 && IsCased(s[i - 1]) then Lower(s[i]) else Upper(s[i])
  }

  /** The kept characters of `s[i..]`, each cased by its position. */
  function WordsFrom(s: string, i: int): string
    requires 0 <= i <= |s|
    decreases |s| - i
  {
    if i == |s| then []
    else (if IsDropped(s[i]) then [] else [CasedAt(s, i)]) + WordsFrom(s, i + 1)
  }

  /** The reference: the words of `s` run together, the very first character lower-cased;
      `None` when `s` has no character that is kept. */
  function CamelWords(s: string): Option<string>
  {
    var w := WordsFrom(s, 0);
    if w == [] then None else Some([Lower(w[0])] + w[1..])
  }

  // ---------------------------------------------------------------------
  // Agreement of the two

  lemma CasingKeepsDropped(c: char, b: bool)
    ensures IsDropped(if b then Lower(c) else Upper(c)) <==> IsDropped(c)
    ensures (if b then Lower(c) else Upper(c)) == ' ' <==> c == ' '
  {
  }

  /** Keeping only the non-dropped characters of a string. */
  function Strip(s: string): string
  {
    if s == [] then []
    else (if IsDropped(s[0]) then [] else [s[0]]) + Strip(s[1..])
  }

  lemma {:induction false} StripTitleDropsLeadingSeparators(s: string)
    ensures Strip(TitleFrom(DropSeparators(s), false)) == Strip(TitleFrom(s, false))
    decreases |s|
  {
    if s != [] && IsSeparator(s[0]) {
      var t := TitleFrom(s, false);
      assert t == [Upper(s[0])] + TitleFrom(s[1..], false);
      assert Upper(s[0]) == s[0];
      assert t[1..] == TitleFrom(s[1..], false);
      StripTitleDropsLeadingSeparators(s[1..]);
    }
  }

  /** Steps 1 to 3 keep exactly the non-dropped characters of the title-cased input. */
  lemma {:induction false} ChainIsStrippedTitle(s: string, b: bool)
    ensures RemoveSpaces(TitleFrom(CollapseSeparators(s), b)) == Strip(TitleFrom(s, b))
    decreases |s|
  {
    if s == [] {
    } else if IsSeparator(s[0]) {
      var rest := DropSeparators(s[1..]);
      var lhs := TitleFrom(CollapseSeparators(s), b);
      assert CollapseSeparators(s) == " " + CollapseSeparators(rest);
      assert lhs == [' '] + TitleFrom(CollapseSeparators(rest), false);
      assert lhs[1..] == TitleFrom(CollapseSeparators(rest), false);
      ChainIsStrippedTitle(rest, false);
      var rhs := TitleFrom(s, b);
      CasingKeepsDropped(s[0], b);
      assert rhs[1..] == TitleFrom(s[1..], false);
      StripTitleDropsLeadingSeparators(s[1..]);
    } else {
      var lhs := TitleFrom(CollapseSeparators(s), b);
      assert CollapseSeparators(s) == [s[0]] + CollapseSeparators(s[1..]);
      assert lhs[1..] == TitleFrom(CollapseSeparators(s[1..]), IsCased(s[0]));
      ChainIsStrippedTitle(s[1..], IsCased(s[0]));
      CasingKeepsDropped(s[0], b);
      var rhs := TitleFrom(s, b);
      assert rhs[1..] == TitleFrom(s[1..], IsCased(s[0]));
    }
  }

  /** The stripped title-cased suffix from position `i` is the reference's words from `i`. */
  lemma {:induction false} StrippedTitleIsWords(s: string, i: int)
    requires 0 <= i <= |s|
    ensures Strip(TitleFrom(s[i..], i > 0 && IsCased(s[i - 1]))) == WordsFrom(s, i)
    decreases |s| - i
  {
    if i < |s| {
      var b := i > 0 && IsCased(s[i - 1]);
      var t := TitleFrom(s[i..], b);
      assert s[i..][0] == s[i];
      assert s[i..][1..] == s[i + 1..];
      assert t[0] == CasedAt(s, i);
      assert t[1..] == TitleFrom(s[i + 1..], IsCased(s[i]));
      CasingKeepsDropped(s[i], b);
      StrippedTitleIsWords(s, i + 1);
    }
  }

  /** The source's chain and the reference description give the same result. */
  lemma ToCamelCaseIsCamelWords(s: string)
    ensures ToCamelCase(s) == CamelWords(s)
  {
    ChainIsStrippedTitle(s, false);
    StrippedTitleIsWords(s, 0);
    assert s[0..] == s;
  }

  // ---------------------------------------------------------------------
  // Properties of the reference

  lemma {:induction false} WordsFromShape(s: string, i: int)
    requires 0 <= i <= |s|
    ensures |WordsFrom(s, i)| <= |s| - i
    ensures forall k :: 0 <= k < |WordsFrom(s, i)| ==> !IsDropped(WordsFrom(s, i)[k])
    ensures WordsFrom(s, i) == [] <==> forall j :: i <= j < |s| ==> IsDropped(s[j])
    decreases |s| - i
  {
    if i < |s| {
      WordsFromShape(s, i + 1);
      CasingKeepsDropped(s[i], i > 0 && IsCased(s[i - 1]));
      var head := if IsDropped(s[i]) then [] else [CasedAt(s, i)];
      assert WordsFrom(s, i) == head + WordsFrom(s, i + 1);
      forall k | 0 <= k < |WordsFrom(s, i)|
        ensures !IsDropped(WordsFrom(s, i)[k])
      {
        if k >= |head| {
          assert WordsFrom(s, i)[k] == WordsFrom(s, i + 1)[k - |head|];
        }
      }
    }
  }

  /** to_camel_case fails exactly on input made only of '_', '-' and spaces
      (the empty string included); otherwise its result has none of those
      characters and is no longer than the input. */
  lemma ToCamelCaseShape(s: string)
    ensures ToCamelCase(s).None? <==> forall j :: 0 <= j < |s| ==> IsDropped(s[j])
    ensures ToCamelCase(s).Some? ==>
              |ToCamelCase(s).value| <= |s| &&
              forall k :: 0 <= k < |ToCamelCase(s).value| ==> !IsDropped(ToCamelCase(s).value[k])
  {
    ToCamelCaseIsCamelWords(s);
    WordsFromShape(s, 0);
    var w := WordsFrom(s, 0);
    if w != [] {
      CasingKeepsDropped(w[0], true);
      var r := [Lower(w[0])] + w[1..];
      forall k | 0 <= k < |r| ensures !IsDropped(r[k]) {
        if k > 0 { assert r[k] == w[k]; }
      }
    }
  }

  /** A letter that follows a letter is lower-cased, one that follows any
      other character is upper-cased (position 0 is lower-cased afterwards). */
  lemma CamelWordsExample()
    ensures CamelWords("post_id") == Some("postId")
    ensures CamelWords("_ -") == None
  {
    var s := "post_id";
    assert WordsFrom(s, 7) == [];
    assert WordsFrom(s, 6) == "d";
    assert WordsFrom(s, 5) == "Id";
    assert WordsFrom(s, 4) == "Id";
    assert WordsFrom(s, 3) == "tId";
    assert WordsFrom(s, 2) == "stId";
    assert WordsFrom(s, 1) == "ostId";
    assert WordsFrom(s, 0) == "PostId";
    assert [Lower('P')] + "PostId"[1..] == "postId";
    var e := "_ -";
    assert WordsFrom(e, 3) == [];
    assert WordsFrom(e, 2) == [];
    assert WordsFrom(e, 1) == [];
  }
}
