/**
  The letters shown in a user's avatar (src/components/UserAvatar.tsx): the
  initials of the first and the last word of the name, upper-cased, or "?" for
  a blank name. The background colour is not part of this model.
 */
module UserAvatar {
  import opened Wrappers
  import opened JsString

  /** The initials before upper-casing: "?" for a blank name, the first character
      of a single word, or the first characters of the first and the last word. */
  function Initials(name: string): (r: string)
    ensures 1 <= |r| <= 2
  {
    InitialsOfTrimmed(Trim(name))
  }

  /** The initials chosen from the words of the trimmed name `t`. */
  function InitialsOfTrimmed(t: string): (r: string)
    requires IsTrimmed(t)
    ensures 1 <= |r| <= 2
    ensures t == [] ==> r == "?"
    ensures t != [] ==> r[0] == t[0]
  {
    var words := Split(t);
    assert t != [] ==> words[0] != [] && words[0][0] == t[0] by {
      if t != [] {
        FirstPieceNonEmpty(t);
        FirstPieceStarts(t);
      }
    }
    if |words| == 0 || words[0] == [] then
      "?"
    else if |words| == 1 then
      [words[0][0]]
    else
      assert t != [];
      SplitOfTrimmed(t);
      [words[0][0], words[|words| - 1][0]]
  }

  /** The text `stringAvatar` puts in the avatar. */
  function StringAvatar(name: string): (r: string)
    ensures 1 <= |r| <= 2
  {
    ToUpperCase(Initials(name))
  }

  /** The avatar of the `UserAvatar` component, whose `name` defaults to "". */
  function AvatarText(name: Option<string>): (r: string)
    ensures name.None? ==> r == "?"
  {
    BlankName("");
    StringAvatar(name.GetOr(""))
  }

  /** A blank or all-whitespace name shows "?". */
  lemma {:induction false} BlankName(name: string)
    requires AllWhitespace(name)
    ensures StringAvatar(name) == "?"
  {
    InitialsOfBlank();
    assert Initials(name) == "?";
    UpperOne('?');
    assert UpperChar('?') == '?';
  }

  lemma {:induction false} InitialsOfBlank()
    ensures InitialsOfTrimmed([]) == "?"
  {
    assert Split([]) == [[]];
  }

  /** A single word, with any whitespace around it, shows its first character. */
  lemma {:induction false} SingleWord(lead: string, word: string, trail: string)
    requires AllWhitespace(lead) && AllWhitespace(trail)
    requires word != [] && NoWhitespace(word)
    ensures StringAvatar(lead + word + trail) == [UpperChar(word[0])]
  {
    assert IsTrimmed(word);
    TrimOfPadded(lead, word, trail);
    InitialsOfWord(word);
    UpperOne(word[0]);
  }

  /** The initials of a single word. */
  lemma {:induction false} InitialsOfWord(word: string)
    requires word != [] && NoWhitespace(word)
    ensures IsTrimmed(word) && InitialsOfTrimmed(word) == [word[0]]
  {
    WhitespaceIndexOfWord(word);
    assert Split(word) == [word];
  }

  lemma {:induction false} UpperOne(c: char)
    ensures ToUpperCase([c]) == [UpperChar(c)]
  {
  }

  /** Joined words without whitespace at their ends are trimmed. */
  lemma {:induction false} JoinIsTrimmed(words: seq<string>, seps: seq<string>)
    requires IsWordList(words, seps)
    requires words[0] != [] && words[|words| - 1] != []
    ensures IsTrimmed(Join(words, seps))
  {
    JoinStart(words, seps);
    JoinEnd(words, seps);
    assert NoWhitespace(words[0]) && NoWhitespace(words[|words| - 1]);
  }

  /** The initials of a trimmed text of two or more words. */
  lemma {:induction false} InitialsOfSeveral(t: string, words: seq<string>)
    requires IsTrimmed(t) && Split(t) == words && |words| >= 2 && words[0] != []
    ensures words[|words| - 1] != []
    ensures InitialsOfTrimmed(t) == [words[0][0], words[|words| - 1][0]]
  {
    SplitOfTrimmed(t);
  }

  lemma {:induction false} UpperPair(a: char, b: char)
    ensures ToUpperCase([a, b]) == [UpperChar(a), UpperChar(b)]
  {
  }

  /** Two or more words show the first character of the first and of the last
      word; the words in between and the lengths of the separators do not matter. */
  lemma {:induction false} SeveralWords(lead: string, words: seq<string>, seps: seq<string>, trail: string)
    requires AllWhitespace(lead) && AllWhitespace(trail)
    requires IsWordList(words, seps) && |words| >= 2
    requires words[0] != [] && words[|words| - 1] != []
    ensures var first, last := words[0], words[|words| - 1];
      StringAvatar(lead + Join(words, seps) + trail) == [UpperChar(first[0]), UpperChar(last[0])]
  {
    var core := Join(words, seps);
    JoinIsTrimmed(words, seps);
    TrimOfPadded(lead, core, trail);
    SplitJoin(words, seps);
    InitialsOfSeveral(core, words);
    UpperPair(words[0][0], words[|words| - 1][0]);
  }

  /** Surrounding whitespace never changes the avatar: the name is trimmed first. */
  lemma {:induction false} PaddingIgnored(lead: string, name: string, trail: string)
    requires AllWhitespace(lead) && AllWhitespace(trail)
    ensures StringAvatar(lead + name + trail) == StringAvatar(name)
  {
    TrimIgnoresPadding(lead, name, trail);
  }

  /** The words of a name may be separated by any non-empty runs of whitespace:
      the avatar is the one of the same words separated by single spaces. */
  lemma {:induction false} SeparatorRunsIgnored(words: seq<string>, seps: seq<string>, seps': seq<string>)
    requires IsWordList(words, seps) && IsWordList(words, seps')
    requires forall k :: 0 <= k < |words| ==> words[k] != []
    ensures StringAvatar(Join(words, seps)) == StringAvatar(Join(words, seps'))
  {
    if |words| == 1 {
      SingleWord([], words[0], []);
      assert Join(words, seps) == Join(words, seps') == words[0] == [] + words[0] + [];
    } else {
      SeveralWords([], words, seps, []);
      SeveralWords([], words, seps', []);
      Unpadded(Join(words, seps));
      Unpadded(Join(words, seps'));
    }
  }

  lemma {:induction false} Unpadded(s: string)
    ensures [] + s + [] == s
  {
  }

  /** Every name is blank or has non-empty words between whitespace, so the
      three cases above (blank, one word, several words) cover every name. */
  lemma {:induction false} NameShapes(name: string)
    returns (lead: string, words: seq<string>, seps: seq<string>, trail: string)
    ensures AllWhitespace(lead) && AllWhitespace(trail) && IsWordList(words, seps)
    ensures name == lead + Join(words, seps) + trail
    ensures AllWhitespace(name) ==> words == [[]]
    ensures !AllWhitespace(name) ==> forall k :: 0 <= k < |words| ==> words[k] != []
  {
    lead, trail := TrimDecomposes(name);
    var t := Trim(name);
    JoinSplit(t);
    words, seps := Split(t), Separators(t);
    if t != [] {
      SplitOfTrimmed(t);
    } else {
      assert words == [[]];
    }
  }
}
