/**
 * The filename normaliser: lowercase the name, turn every space into an
 * underscore, then delete every character outside [a-zA-Z0-9_.].
 * Lowercasing is modelled for ASCII letters only; every other character is
 * left as it is by that step (and is then deleted by the last step).
 */
module FilenameNormalizer {

  predicate IsUpper(c: char) { 'A' <= c <= 'Z' }

  predicate IsLower(c: char) { 'a' <= c <= 'z' }

  predicate IsDigit(c: char) { '0' <= c <= '9' }

  /** The class [a-zA-Z0-9_.] that the second regular expression keeps. */
  predicate IsAllowed(c: char) { IsUpper(c) || IsLower(c) || IsDigit(c) || c == '_' || c == '.' }

  /** What a normalised filename is made of: [a-z0-9_.]. */
  predicate IsSafe(c: char) { IsLower(c) || IsDigit(c) || c == '_' || c == '.' }

  /** ASCII lowercasing of one character. */
  function LowerChar(c: char): (d: char)
    ensures !IsUpper(d)
    ensures IsUpper(c) ==> IsLower(d) && d as int - 'a' as int == c as int - 'A' as int
    ensures !IsUpper(c) ==> d == c
  {
    if IsUpper(c) then (c as int - 'A' as int + 'a' as int) as char else c
  }

  /** Step 1: lowercase the whole name. */
  function ToLower(s: string): string
  {
    if s == [] then [] else [LowerChar(s[0])] + ToLower(s[1..])
  }

  /** Step 2: replace every space with an underscore. */
  function SpacesToUnderscores(s: string): string
  {
    if s == [] then [] else [if s[0] == ' ' then '_' else s[0]] + SpacesToUnderscores(s[1..])
  }

  /** Step 3: delete every character outside [a-zA-Z0-9_.]. */
  function DeleteDisallowed(s: string): string
  {
    if s == [] then []
    else (if IsAllowed(s[0]) then [s[0]] else []) + DeleteDisallowed(s[1..])
  }

  /** Lowercasing keeps the length and lowercases every character in place. */
  lemma {:induction false} ToLowerPointwise(s: string)
    ensures |ToLower(s)| == |s|
    ensures forall i :: 0 <= i < |s| ==> ToLower(s)[i] == LowerChar(s[i])
  {
    if s != [] {
      ToLowerPointwise(s[1..]);
      assert forall i :: 1 <= i < |s| ==> ToLower(s)[i] == ToLower(s[1..])[i - 1];
    }
  }

  /** Replacing spaces keeps the length, turns each space into '_' and leaves the rest. */
  lemma {:induction false} SpacesToUnderscoresPointwise(s: string)
    ensures |SpacesToUnderscores(s)| == |s|
    ensures forall i :: 0 <= i < |s| ==> SpacesToUnderscores(s)[i] == if s[i] == ' ' then '_' else s[i]
  {
    if s != [] {
      SpacesToUnderscoresPointwise(s[1..]);
      assert forall i :: 1 <= i < |s| ==> SpacesToUnderscores(s)[i] == SpacesToUnderscores(s[1..])[i - 1];
    }
  }

  /**
   * Deleting keeps exactly the allowed characters: every allowed character
   * occurs as often as in the input, and no other character is left.
   */
  lemma {:induction false} DeleteDisallowedCounts(s: string)
    ensures forall c :: IsAllowed(c) ==> multiset(DeleteDisallowed(s))[c] == multiset(s)[c]
    ensures forall c :: !IsAllowed(c) ==> multiset(DeleteDisallowed(s))[c] == 0
  {
    if s != [] {
      DeleteDisallowedCounts(s[1..]);
      var head := if IsAllowed(s[0]) then [s[0]] else [];
      assert multiset(DeleteDisallowed(s)) == multiset(head) + multiset(DeleteDisallowed(s[1..]));
      assert s == [s[0]] + s[1..];
      assert multiset(s) == multiset([s[0]]) + multiset(s[1..]);
    }
  }

  /** Deletion works on each part of a string separately, so the kept characters stay in order. */
  lemma {:induction false} DeleteDisallowedConcat(a: string, b: string)
    ensures DeleteDisallowed(a + b) == DeleteDisallowed(a) + DeleteDisallowed(b)
  {
    if a == [] {
      assert a + b == b;
    } else {
      assert (a + b)[0] == a[0];
      assert (a + b)[1..] == a[1..] + b;
      DeleteDisallowedConcat(a[1..], b);
    }
  }

  /** A string of allowed characters passes through the deletion unchanged. */
  lemma {:induction false} DeleteDisallowedKeepsAllowed(s: string)
    requires forall i :: 0 <= i < |s| ==> IsAllowed(s[i])
    ensures DeleteDisallowed(s) == s
  {
    if s != [] {
      assert forall i :: 0 <= i < |s[1..]| ==> IsAllowed(s[1..][i]) by {
        forall i | 0 <= i < |s[1..]| ensures IsAllowed(s[1..][i]) {
          assert s[1..][i] == s[i + 1];
        }
      }
      DeleteDisallowedKeepsAllowed(s[1..]);
      assert s == [s[0]] + s[1..];
    }
  }

  /** The sheet-name normaliser; its output only holds [a-z0-9_.]. */
  function Normalize(name: string): (r: string)
    ensures |r| <= |name|
    ensures forall i :: 0 <= i < |r| ==> IsSafe(r[i])
  {
    StagesArePerCharacter(name);
    NormalizeByCharSafe(name);
    DeleteDisallowed(SpacesToUnderscores(ToLower(name)))
  }

  /** What one input character becomes in the output. */
  function NormalizeChar(c: char): string
  {
    if c == ' ' then "_"
    else if IsAllowed(LowerChar(c)) then [LowerChar(c)]
    else []
  }

  /** A one-pass reference definition: each character is rewritten independently. */
  function NormalizeByChar(s: string): string
  {
    if s == [] then [] else NormalizeChar(s[0]) + NormalizeByChar(s[1..])
  }

  lemma {:induction false} StagesArePerCharacter(s: string)
    ensures DeleteDisallowed(SpacesToUnderscores(ToLower(s))) == NormalizeByChar(s)
  {
    if s != [] {
      StagesArePerCharacter(s[1..]);
      var c := s[0];
      var l := LowerChar(c);
      var u := if l == ' ' then '_' else l;
      assert ToLower(s) == [l] + ToLower(s[1..]);
      assert SpacesToUnderscores([l] + ToLower(s[1..]))
          == [u] + SpacesToUnderscores(ToLower(s[1..]));
      assert DeleteDisallowed([u] + SpacesToUnderscores(ToLower(s[1..])))
          == (if IsAllowed(u) then [u] else []) + DeleteDisallowed(SpacesToUnderscores(ToLower(s[1..])));
    }
  }

  /**
   * The three regular-expression steps amount to rewriting every character
   * on its own: a space becomes '_', a character whose lowercase form is in
   * [a-z0-9_.] becomes that form, and anything else disappears.
   */
  lemma NormalizeIsPerCharacter(s: string)
    ensures Normalize(s) == NormalizeByChar(s)
  {
    StagesArePerCharacter(s);
  }

  /** Each character turns into at most one character of [a-z0-9_.]. */
  lemma {:induction false} NormalizeByCharSafe(s: string)
    ensures |NormalizeByChar(s)| <= |s|
    ensures forall i :: 0 <= i < |NormalizeByChar(s)| ==> IsSafe(NormalizeByChar(s)[i])
  {
    if s != [] {
      NormalizeByCharSafe(s[1..]);
      var h, t := NormalizeChar(s[0]), NormalizeByChar(s[1..]);
      assert forall i :: 0 <= i < |h| ==> IsSafe(h[i]);
      assert forall i :: |h| <= i < |h + t| ==> (h + t)[i] == t[i - |h|];
    }
  }

  lemma {:induction false} NormalizeByCharConcat(a: string, b: string)
    ensures NormalizeByChar(a + b) == NormalizeByChar(a) + NormalizeByChar(b)
  {
    if a == [] {
      assert a + b == b;
    } else {
      assert (a + b)[0] == a[0];
      assert (a + b)[1..] == a[1..] + b;
      NormalizeByCharConcat(a[1..], b);
    }
  }

  /** Normalising distributes over concatenation. */
  lemma NormalizeConcat(a: string, b: string)
    ensures Normalize(a + b) == Normalize(a) + Normalize(b)
  {
    NormalizeIsPerCharacter(a + b);
    NormalizeIsPerCharacter(a);
    NormalizeIsPerCharacter(b);
    NormalizeByCharConcat(a, b);
  }

  /** The ".csv" extension passes through the normaliser unchanged. */
  lemma NormalizeCsvName(name: string)
    ensures Normalize(name + ".csv") == Normalize(name) + ".csv"
  {
    NormalizeConcat(name, ".csv");
    NormalizeIsPerCharacter(".csv");
    assert ".csv"[1..] == "csv" && "csv"[1..] == "sv" && "sv"[1..] == "v" && "v"[1..] == "";
  }

  /** A name is left unchanged exactly when it is already made of [a-z0-9_.]. */
  lemma {:induction false} NormalizeFixedPoints(s: string)
    ensures Normalize(s) == s <==> forall i :: 0 <= i < |s| ==> IsSafe(s[i])
  {
    NormalizeIsPerCharacter(s);
    if s != [] {
      NormalizeFixedPoints(s[1..]);
      NormalizeIsPerCharacter(s[1..]);
      if forall i :: 0 <= i < |s| ==> IsSafe(s[i]) {
        assert IsSafe(s[0]);
        assert forall i :: 0 <= i < |s[1..]| ==> IsSafe(s[1..][i]) by {
          forall i | 0 <= i < |s[1..]| ensures IsSafe(s[1..][i]) {
            assert s[1..][i] == s[i + 1];
          }
        }
        assert NormalizeChar(s[0]) == [s[0]];
        assert s == [s[0]] + s[1..];
      }
    }
  }

  /** Normalising twice is the same as normalising once. */
  lemma NormalizeIdempotent(s: string)
    ensures Normalize(Normalize(s)) == Normalize(s)
  {
    NormalizeFixedPoints(Normalize(s));
  }

  /** How the words of the example "Sheet One (Q1).csv" are rewritten. */
  lemma ExampleWords()
    ensures NormalizeByChar("Sheet") == "sheet" && NormalizeByChar(" One") == "_one"
  {
    assert NormalizeByChar("t") == "t";
    assert NormalizeByChar("eet") == "eet";
    assert NormalizeByChar("Sheet") == "sheet";
    assert NormalizeByChar("e") == "e";
    assert NormalizeByChar(" One") == "_one";
  }

  lemma ExampleTail()
    ensures NormalizeByChar(" (Q1)") == "_q1" && NormalizeByChar(".csv") == ".csv"
  {
    assert NormalizeByChar("1)") == "1";
    assert NormalizeByChar(" (Q1)") == "_q1";
    assert NormalizeByChar("v") == "v";
    assert NormalizeByChar(".csv") == ".csv";
  }

  /** The rewriting of four pieces joined is the four rewritings joined. */
  lemma NormalizeByCharConcat4(a: string, b: string, c: string, d: string)
    ensures NormalizeByChar(a + b + c + d)
         == NormalizeByChar(a) + NormalizeByChar(b) + NormalizeByChar(c) + NormalizeByChar(d)
  {
    NormalizeByCharConcat(a, b);
    NormalizeByCharConcat(a + b, c);
    NormalizeByCharConcat(a + b + c, d);
  }

  /** The example "Sheet One (Q1).csv", rewritten character by character, from the rewriting of its words. */
  lemma ExampleByChar(a: string, b: string, c: string, d: string)
    requires NormalizeByChar(a) == "sheet" && NormalizeByChar(b) == "_one"
    requires NormalizeByChar(c) == "_q1" && NormalizeByChar(d) == ".csv"
    ensures NormalizeByChar(a + b + c + d) == "sheet_one_q1.csv"
  {
    NormalizeByCharConcat4(a, b, c, d);
    assert "sheet" + "_one" + "_q1" + ".csv" == "sheet_one_q1.csv";
  }

  lemma ExampleLiteral(a: string, b: string, c: string, d: string)
    requires a == "Sheet" && b == " One" && c == " (Q1)" && d == ".csv"
    ensures NormalizeByChar(a + b + c + d) == "sheet_one_q1.csv"
  {
    ExampleWords();
    ExampleTail();
    ExampleByChar(a, b, c, d);
  }

  /** The example "Sheet One (Q1).csv", and the empty name. */
  lemma NormalizeExamples()
    ensures Normalize("Sheet One (Q1).csv") == "sheet_one_q1.csv"
    ensures Normalize("") == ""
  {
    ExampleLiteral("Sheet", " One", " (Q1)", ".csv");
    assert "Sheet" + " One" + " (Q1)" + ".csv" == "Sheet One (Q1).csv";
    NormalizeIsPerCharacter("Sheet One (Q1).csv");
  }
}
