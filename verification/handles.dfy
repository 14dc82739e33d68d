/**
 * The handle test `looksLikeHandle`: a whole-string match of the pattern
 * `@(\w+)`. This model reads `\w` as the ASCII class `[A-Za-z0-9_]`.
 */
module Handles {

  /** One character of the class `\w`. */
  predicate IsWordChar(c: char)
  {
    ('a' <= c <= 'z') || ('A' <= c <= 'Z') || ('0' <= c <= '9') || c == '_'
  }

  /** `\w+` matched against the whole of `s`, one character at a time. */
  function MatchesWordRun(s: string): (b: bool)
    ensures b <==> |s| >= 1 && forall i :: 0 <= i < |s| ==> IsWordChar(s[i])
  {
    |s| >= 1 && IsWordChar(s[0]) && (|s| == 1 || MatchesWordRun(s[1..]))
  }

  /** `text.matches(Regex("@(\\w+)"))`: a literal `@`, then `\w+` up to the end. */
  function LooksLikeHandle(text: string): (b: bool)
    ensures b <==> |text| >= 2 && text[0] == '@' && forall i :: 1 <= i < |text| ==> IsWordChar(text[i])
  {
    |text| >= 1 && text[0] == '@' && MatchesWordRun(text[1..])
  }

  /** A handle holds no second `@`, so a token such as `@jane@x.com` never matches as a whole. */
  lemma HandleHasSingleAt(text: string)
    requires LooksLikeHandle(text)
    ensures forall i :: 1 <= i < |text| ==> text[i] != '@'
  {
  }

  /** A handle followed directly by a `\w+` run is again a handle. */
  lemma HandleThenWord(handle: string, word: string)
    requires LooksLikeHandle(handle) && MatchesWordRun(word)
    ensures LooksLikeHandle(handle + word)
  {
    var t := handle + word;
    forall i | 1 <= i < |t|
      ensures IsWordChar(t[i])
    {
      if i < |handle| {
        assert t[i] == handle[i];
      } else {
        assert t[i] == word[i - |handle|];
      }
    }
  }

  /** `@` followed by a word is a handle exactly when the word is a `\w+` run. */
  lemma AtJoinedWithWord(rest: string)
    ensures LooksLikeHandle("@" + rest) <==> MatchesWordRun(rest)
  {
    assert ("@" + rest)[1..] == rest;
  }

  /** Whole-string handles are accepted. */
  lemma AcceptsHandle()
    ensures LooksLikeHandle("@raywenderlich")
  {
    var text := "@raywenderlich";
    forall i | 1 <= i < |text|
      ensures IsWordChar(text[i])
    {
      assert 'a' <= text[i] <= 'z';
    }
  }

  lemma AcceptsShortHandle()
    ensures LooksLikeHandle("@jane")
  {
  }

  /** Anything else is rejected: a handle inside a longer token, a bare `@`, no `@`. */
  lemma RejectedExamples()
    ensures !LooksLikeHandle("email@raywenderlich.com")
    ensures !LooksLikeHandle("@")
    ensures !LooksLikeHandle("")
    ensures !LooksLikeHandle("janedoe")
    ensures !LooksLikeHandle("@jane.doe")
  {
    assert "@jane.doe"[5] == '.';
  }

  /** A second `@` spoils a token that starts like a handle. */
  lemma RejectsSecondAt()
    ensures !LooksLikeHandle("@jane@x.com")
  {
    var text := "@jane@x.com";
    assert text[5] == '@';
    if LooksLikeHandle(text) {
      HandleHasSingleAt(text);
      assert false;
    }
  }
}
