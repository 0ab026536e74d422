/** `createUserName`: an account's short user name is the initials of its owner,
    computed as `owner.toLowerCase().split(' ').map(w => w[0]).join('')`. */
module UserNames {

  /** `toLowerCase` on one character, for the ASCII letters. */
  function LowerChar(c: char): char
  {
    if 'A' <= c <= 'Z' then (c as int + 32) as char else c
  }

  function Lower(s: string): string
  {
    seq(|s|, i requires 0 <= i < |s| => LowerChar(s[i]))
  }

  /** `String.prototype.split(' ')`: the pieces between the single spaces of `s`,
      including the empty pieces that two adjacent spaces, or a space at either
      end, delimit. The empty string splits into one empty word. */
  function Split(s: string): (words: seq<string>)
    ensures |words| >= 1
    ensures forall k :: 0 <= k < |words| ==> ' ' !in words[k]
  {
    if |s| == 0 then [""]
    else if s[0] == ' ' then [""] + Split(s[1..])
    else
      var rest := Split(s[1..]);
      [[s[0]] + rest[0]] + rest[1..]
  }

  /** `Array.prototype.join(sep)` on strings. */
  function Join(parts: seq<string>, sep: string): string
  {
    if |parts| == 0 then ""
    else if |parts| == 1 then parts[0]
    else parts[0] + sep + Join(parts[1..], sep)
  }

  /** `w[0]` joined as a string: the first character, or nothing for an empty
      word (`undefined` joins as the empty string). */
  function FirstLetter(w: string): string
  {
    if |w| == 0 then "" else [w[0]]
  }

  /** `.map(letter => letter[0])`, one first letter per word. */
  function FirstLetters(words: seq<string>): (r: seq<string>)
    ensures |r| == |words|
    ensures forall k :: 0 <= k < |words| ==> r[k] == FirstLetter(words[k])
  {
    if |words| == 0 then [] else [FirstLetter(words[0])] + FirstLetters(words[1..])
  }

  /** The user name derived from an owner's full name. */
  function UserName(owner: string): string
  {
    Join(FirstLetters(Split(Lower(owner))), "")
  }

  /** Independent single-pass definition of the initials of `s`: a character is
      kept exactly when it is not a space and starts a word, i.e. it is the first
      character or follows a space. `atStart` says whether the previous character
      was a space (or there was none). */
  function Initials(s: string, atStart: bool): string
  {
    if |s| == 0 then ""
    else (if atStart && s[0] != ' ' then [s[0]] else "") + Initials(s[1..], s[0] == ' ')
  }

  /** Splitting then joining with the same single space gives the string back. */
  lemma {:induction false} SplitJoin(s: string)
    ensures Join(Split(s), " ") == s
  {
    if |s| > 0 {
      var rest := Split(s[1..]);
      SplitJoin(s[1..]);
      if s[0] == ' ' {
        assert Split(s) == [""] + rest;
        assert (Split(s))[1..] == rest;
      } else {
        var words := Split(s);
        assert words[1..] == rest[1..];
        if |rest| > 1 {
          assert Join(rest, " ") == rest[0] + " " + Join(rest[1..], " ");
          assert Join(words, " ") == ([s[0]] + rest[0]) + " " + Join(rest[1..], " ");
        }
        assert s == [s[0]] + s[1..];
      }
    }
  }

  lemma JoinEmptySep(parts: seq<string>)
    requires |parts| >= 1
    ensures Join(parts, "") == parts[0] + Join(parts[1..], "")
  {
    if |parts| == 1 {
      assert parts[1..] == [];
    }
  }

  lemma {:induction false} FirstLettersTail(words: seq<string>)
    requires |words| >= 1
    ensures FirstLetters(words)[1..] == FirstLetters(words[1..])
    ensures FirstLetters(words)[0] == FirstLetter(words[0])
  {
  }

  /** The split-map-join pipeline computes exactly the single-pass initials:
      for a string at a word start, and for a string whose first piece continues
      a word already begun. */
  lemma {:induction false} InitialsOfSplit(s: string)
    ensures Initials(s, true) == Join(FirstLetters(Split(s)), "")
    ensures Initials(s, false) == Join(FirstLetters(Split(s)[1..]), "")
  {
    if |s| == 0 {
      assert FirstLetters([""]) == [""];
    } else {
      var rest := Split(s[1..]);
      var words := Split(s);
      InitialsOfSplit(s[1..]);
      FirstLettersTail(words);
      JoinEmptySep(FirstLetters(words));
      if s[0] == ' ' {
        assert words[1..] == rest;
        assert FirstLetter(words[0]) == "";
      } else {
        assert words[1..] == rest[1..];
        assert FirstLetter(words[0]) == [s[0]];
      }
    }
  }

  /** The user name is the string of word-initial characters of the lower-cased owner. */
  lemma UserNameIsInitials(owner: string)
    ensures UserName(owner) == Initials(Lower(owner), true)
  {
    InitialsOfSplit(Lower(owner));
  }

  /** No initials are taken inside a word that has already begun. */
  lemma {:induction false} InitialsInsideWord(w: string, tail: string)
    requires ' ' !in w
    ensures Initials(w + tail, false) == Initials(tail, false)
  {
    if |w| > 0 {
      assert (w + tail)[1..] == w[1..] + tail;
      InitialsInsideWord(w[1..], tail);
    } else {
      assert w + tail == tail;
    }
  }

  /** Initials of a word `w` at a word start, followed by a space and `tail`. */
  lemma InitialsOfWord(w: string, tail: string)
    requires |w| >= 1 && ' ' !in w
    ensures Initials(w + " " + tail, true) == [w[0]] + Initials(tail, true)
    ensures Initials(w, true) == [w[0]]
  {
    assert (w + " " + tail)[1..] == w[1..] + (" " + tail);
    InitialsInsideWord(w[1..], " " + tail);
    assert (" " + tail)[1..] == tail;
    assert w[1..] + "" == w[1..];
    InitialsInsideWord(w[1..], "");
  }

  /** A two-word name yields the first letters of its two words. */
  lemma InitialsOfTwoWords(first: string, last: string)
    requires |first| >= 1 && ' ' !in first
    requires |last| >= 1 && ' ' !in last
    ensures Initials(first + " " + last, true) == [first[0], last[0]]
  {
    InitialsOfWord(first, last);
    InitialsOfWord(last, "");
  }

  /** Lower-casing works character by character, so it distributes over `+`. */
  lemma LowerConcat(a: string, b: string)
    ensures Lower(a + b) == Lower(a) + Lower(b)
  {
  }

  lemma LowerStevenThomasWilliams()
    ensures Lower("Steven Thomas Williams") == "steven" + " " + ("thomas" + " " + "williams")
  {
    assert "Steven Thomas Williams" == "Steven " + "Thomas Williams";
    LowerConcat("Steven ", "Thomas Williams");
    assert Lower("Steven ") == "steven ";
    assert Lower("Thomas Williams") == "thomas williams";
  }

  lemma InitialsStevenThomasWilliams()
    ensures Initials("steven" + " " + ("thomas" + " " + "williams"), true) == "stw"
  {
    InitialsOfWord("steven", "thomas" + " " + "williams");
    InitialsOfWord("thomas", "williams");
    InitialsOfWord("williams", "");
  }

  lemma UserNameStevenThomasWilliams()
    ensures UserName("Steven Thomas Williams") == "stw"
  {
    UserNameIsInitials("Steven Thomas Williams");
    LowerStevenThomasWilliams();
    InitialsStevenThomasWilliams();
  }

  lemma LowerJessicaDavis()
    ensures Lower("Jessica Davis") == "jessica" + " " + "davis"
  {
    assert Lower("Jessica Davis") == "jessica davis";
  }

  lemma UserNameJessicaDavis()
    ensures UserName("Jessica Davis") == "jd"
  {
    UserNameIsInitials("Jessica Davis");
    LowerJessicaDavis();
    InitialsOfTwoWords("jessica", "davis");
  }

  lemma LowerJonasSchmedtmann()
    ensures Lower("Jonas Schmedtmann") == "jonas" + " " + "schmedtmann"
  {
    assert Lower("Jonas Schmedtmann") == "jonas schmedtmann";
  }

  lemma UserNameJonasSchmedtmann()
    ensures UserName("Jonas Schmedtmann") == "js"
  {
    UserNameIsInitials("Jonas Schmedtmann");
    LowerJonasSchmedtmann();
    InitialsOfTwoWords("jonas", "schmedtmann");
  }

  lemma LowerSarahSmith()
    ensures Lower("Sarah Smith") == "sarah" + " " + "smith"
  {
    assert Lower("Sarah Smith") == "sarah smith";
  }

  lemma UserNameSarahSmith()
    ensures UserName("Sarah Smith") == "ss"
  {
    UserNameIsInitials("Sarah Smith");
    LowerSarahSmith();
    InitialsOfTwoWords("sarah", "smith");
  }
}
