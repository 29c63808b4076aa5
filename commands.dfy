/** How one line typed at the "Command: " prompt is understood: lower-cased,
    matched against the control words, otherwise split into a verb and a
    bucket id. */
module Commands {
  import opened Storage
  import opened Numbers

  /** `toLowerCase` on one character; only A-Z are mapped. */
  function LowerChar(c: char): char
  {
    if 'A' <= c <= 'Z' then (c as int - 'A' as int + 'a' as int) as char else c
  }

  /** `toLowerCase` on a line. */
  function ToLower(s: string): (r: string)
    ensures |r| == |s|
    ensures forall i | 0 <= i < |s| :: r[i] == LowerChar(s[i])
  {
    seq(|s|, i requires 0 <= i < |s| => LowerChar(s[i]))
  }

  /** The text left once trailing white space is removed. */
  function TrimEnd(s: string): (r: string)
    ensures |r| <= |s| && r == s[..|r|]
    ensures forall i | |r| <= i < |s| :: IsWhiteSpace(s[i])
    ensures r == [] || !IsWhiteSpace(r[|r| - 1])
  {
    if |s| > 0 && IsWhiteSpace(s[|s| - 1]) then TrimEnd(s[..|s| - 1]) else s
  }

  /** `trim()`: white space removed at both ends. */
  function Trim(s: string): string
  {
    TrimEnd(SkipWhiteSpace(s))
  }

  /** `indexOf(c)`: the first position of `c`, or -1. */
  function IndexOf(s: string, c: char): (r: int)
    ensures r == -1 <==> c !in s
    ensures r != -1 ==> 0 <= r < |s| && s[r] == c && c !in s[..r]
  {
    if s == [] then -1
    else if s[0] == c then 0
    else
      var k := IndexOf(s[1..], c);
      assert s == [s[0]] + s[1..];
      if k == -1 then -1
      else
        assert s[..k + 1] == [s[0]] + s[1..][..k];
        k + 1
  }

  datatype Command =
    | Help
    | Quit
    | Refresh
    | Delete(target: Option<int>)
    | List(target: Option<int>)
    | Empty(target: Option<int>)
    | Unrecognised

  /** The verb and the id of a line that is no control word: the verb is the
      trimmed text up to and including the first space, the id is `parseInt`
      of the text after it. Without a space the cut falls after the first
      character. (`substr` clamps its bounds to the text.) */
  function Split(action: string): (r: (string, Option<int>))
    ensures action == [] ==> r == ([], None)
    ensures action != [] && ' ' !in action ==> r == (Trim(action[..1]), ParseInt(action[1..]))
  {
    var found := IndexOf(action, ' ');
    var spacePos := if found == -1 then 0 else found;
    var cut := if spacePos + 1 <= |action| then spacePos + 1 else |action|;
    (Trim(action[..cut]), ParseInt(action[cut..]))
  }

  /** The branch a verb selects; any other verb selects none. */
  function Dispatch(verb: string, target: Option<int>): (c: Command)
    ensures c.Delete? || c.List? || c.Empty? || c.Unrecognised?
  {
    if verb == "delete" || verb == "d" then Delete(target)
    else if verb == "list" || verb == "l" then List(target)
    else if verb == "empty" || verb == "e" then Empty(target)
    else Unrecognised
  }

  predicate IsHelpWord(action: string)
  {
    action == "?" || action == "help" || action == ""
  }

  predicate IsQuitWord(action: string)
  {
    action == "q" || action == "quit"
  }

  predicate IsRefreshWord(action: string)
  {
    action == "r" || action == "refresh"
  }

  /** The command a typed line stands for. */
  function ParseCommand(line: string): Command
  {
    var action := ToLower(line);
    if IsHelpWord(action) then Help
    else if IsQuitWord(action) then Quit
    else if IsRefreshWord(action) then Refresh
    else
      var (verb, target) := Split(action);
      Dispatch(verb, target)
  }

  /** A line means help, quit or refresh exactly when its lower-case form is
      one of that command's words; every other line is split and dispatched. */
  lemma ControlWordsParse(line: string)
    ensures ParseCommand(line).Help? <==>
      ToLower(line) == "?" || ToLower(line) == "help" || ToLower(line) == ""
    ensures ParseCommand(line).Quit? <==> ToLower(line) == "q" || ToLower(line) == "quit"
    ensures ParseCommand(line).Refresh? <==> ToLower(line) == "r" || ToLower(line) == "refresh"
  {
  }

  lemma LowerFixed(s: string)
    requires forall i | 0 <= i < |s| :: !('A' <= s[i] <= 'Z')
    ensures ToLower(s) == s
  {
  }

  /** Commands are case-insensitive: a line means what its lower-case form
      means. */
  lemma CaseInsensitive(line: string)
    ensures ParseCommand(ToLower(line)) == ParseCommand(line)
  {
    assert ToLower(ToLower(line)) == ToLower(line);
  }

  lemma LetterIsNoWhiteSpace(c: char)
    requires 'a' <= c <= 'z'
    ensures !IsWhiteSpace(c)
  {
  }

  lemma TrimWord(w: string)
    requires w != [] && forall i | 0 <= i < |w| :: 'a' <= w[i] <= 'z'
    ensures Trim(w + " ") == w
    ensures Trim(w) == w
  {
    LetterIsNoWhiteSpace(w[0]);
    LetterIsNoWhiteSpace(w[|w| - 1]);
    assert SkipWhiteSpace(w + " ") == w + " ";
    assert (w + " ")[..|w|] == w;
    assert TrimEnd(w + " ") == TrimEnd(w);
  }

  /** A line whose lower-case form is no control word is split and
      dispatched. */
  lemma ParseOrdinaryLine(line: string)
    requires !IsHelpWord(ToLower(line)) && !IsQuitWord(ToLower(line)) && !IsRefreshWord(ToLower(line))
    ensures ParseCommand(line) == Dispatch(Split(ToLower(line)).0, Split(ToLower(line)).1)
  {
  }

  /** A space, or a first letter d, l or e, rules out every control word. */
  lemma NoControlWord(action: string)
    requires ' ' in action || (|action| > 0 && (action[0] == 'd' || action[0] == 'l' || action[0] == 'e'))
    ensures !IsHelpWord(action) && !IsQuitWord(action) && !IsRefreshWord(action)
  {
    assert action != "?" && action != "help" && action != "";
    assert action != "q" && action != "quit" && action != "r" && action != "refresh";
  }

  /** The trimmed form of one character is that character or nothing. */
  lemma TrimChar(c: char)
    ensures Trim([c]) == [c] || Trim([c]) == []
  {
    if IsWhiteSpace(c) {
      assert SkipWhiteSpace([c]) == SkipWhiteSpace([]);
    } else {
      assert SkipWhiteSpace([c]) == [c];
    }
  }

  /** A line with no space that is no control word and whose first letter is
      not d, l or e selects no branch: `x`, `foo`, `7`. */
  lemma UnknownVerb(line: string)
    requires line != [] && ' ' !in line
    requires !IsHelpWord(ToLower(line)) && !IsQuitWord(ToLower(line)) && !IsRefreshWord(ToLower(line))
    requires LowerChar(line[0]) != 'd' && LowerChar(line[0]) != 'l' && LowerChar(line[0]) != 'e'
    ensures ParseCommand(line) == Unrecognised
  {
    var action := ToLower(line);
    assert ' ' !in action by {
      forall i | 0 <= i < |action| ensures action[i] != ' ' {
        assert line[i] != ' ';
      }
    }
    var c := action[0];
    assert action[..1] == [c];
    TrimChar(c);
    var (verb, target) := Split(action);
    assert verb == [c] || verb == [];
    ParseOrdinaryLine(line);
    ShortVerb(verb, target);
  }

  /** No verb of the branches is empty or a single letter other than d, l
      and e. */
  lemma ShortVerb(verb: string, target: Option<int>)
    requires |verb| <= 1
    requires verb != "d" && verb != "l" && verb != "e"
    ensures Dispatch(verb, target) == Unrecognised
  {
  }

  /** With a space, the cut falls right after the first space. */
  lemma SplitAtSpace(action: string, p: nat)
    requires p < |action| && action[p] == ' ' && ' ' !in action[..p]
    ensures Split(action) == (Trim(action[..p + 1]), ParseInt(action[p + 1..]))
  {
    var r := IndexOf(action, ' ');
    assert action[p] in action;
    assert forall k | 0 <= k < p :: action[k] != ' ' by {
      forall k | 0 <= k < p ensures action[k] != ' ' {
        assert action[..p][k] == action[k];
      }
    }
    assert forall k | 0 <= k < r :: action[k] != ' ' by {
      forall k | 0 <= k < r ensures action[k] != ' ' {
        assert action[..r][k] == action[k];
      }
    }
    assert r == p;
  }

  /** Without a space, the first character is the verb and the rest the
      number. */
  lemma SplitFirstChar(c: char, rest: string)
    requires c != ' ' && ' ' !in rest
    ensures Split([c] + rest) == (Trim([c]), ParseInt(rest))
  {
    var line := [c] + rest;
    assert line[..1] == [c];
    assert line[1..] == rest;
  }

  lemma LowerNumeral(prefix: string, n: int)
    requires forall i | 0 <= i < |prefix| :: !('A' <= prefix[i] <= 'Z')
    ensures ToLower(prefix + NumberToString(n)) == prefix + NumberToString(n)
  {
    var digits := NumberToString(n);
    var line := prefix + digits;
    NumeralCharacters(n);
    forall i | 0 <= i < |line| ensures !('A' <= line[i] <= 'Z') {
      if i >= |prefix| { assert line[i] == digits[i - |prefix|]; }
    }
    LowerFixed(line);
  }

  /** "verb id" with a space: `d 3` is delete 3, `list 12` is list 12, and
      a word that is no verb selects nothing. */
  lemma SpacedCommand(verb: string, n: int)
    requires verb != [] && forall i | 0 <= i < |verb| :: 'a' <= verb[i] <= 'z'
    ensures ParseCommand(verb + " " + NumberToString(n)) == Dispatch(verb, Some(n))
  {
    var line := verb + " " + NumberToString(n);
    assert ToLower(line) == line by {
      LowerNumeral(verb + " ", n);
    }
    assert ParseCommand(line) == Dispatch(Split(line).0, Split(line).1) by {
      assert line[|verb|] == ' ';
      NoControlWord(line);
      ParseOrdinaryLine(line);
    }
    SplitSpaced(verb, n);
  }

  /** "verb id" splits into the verb and the id. */
  lemma SplitSpaced(verb: string, n: int)
    requires verb != [] && forall i | 0 <= i < |verb| :: 'a' <= verb[i] <= 'z'
    ensures Split(verb + " " + NumberToString(n)) == (verb, Some(n))
  {
    var digits := NumberToString(n);
    var line := verb + " " + digits;
    assert line[|verb|] == ' ';
    assert line[..|verb|] == verb;
    assert ' ' !in verb;
    SplitAtSpace(line, |verb|);
    assert line[..|verb| + 1] == verb + " ";
    assert line[|verb| + 1..] == digits;
    TrimWord(verb);
    ParseIntOfNumeral(n);
  }

  /** A one-letter verb run together with its id: `l1` is list 1. */
  lemma CompactCommand(c: char, n: int)
    requires c == 'd' || c == 'l' || c == 'e'
    ensures ParseCommand([c] + NumberToString(n)) == Dispatch([c], Some(n))
  {
    var digits := NumberToString(n);
    var line := [c] + digits;
    assert ToLower(line) == line by {
      LowerNumeral([c], n);
    }
    assert ' ' !in line by {
      NumeralCharacters(n);
      assert forall i | 1 <= i < |line| :: line[i] == digits[i - 1];
    }
    assert ParseCommand(line) == Dispatch(Split(line).0, Split(line).1) by {
      NoControlWord(line);
      ParseOrdinaryLine(line);
    }
    assert Split(line) == ([c], Some(n)) by {
      assert line[..1] == [c];
      assert line[1..] == digits;
      TrimWord([c]);
      ParseIntOfNumeral(n);
    }
  }

  /** A word of letters is NaN to parseInt. */
  lemma LettersNaN(rest: string)
    requires rest != [] && 'a' <= rest[0] <= 'z'
    ensures ParseInt(rest) == None
  {
    LetterIsNoWhiteSpace(rest[0]);
    ParseIntNaN(rest);
  }

  lemma SplitCompactWord(c: char, rest: string)
    requires 'a' <= c <= 'z'
    requires rest != [] && forall i | 0 <= i < |rest| :: 'a' <= rest[i] <= 'z'
    ensures Split([c] + rest) == ([c], None)
  {
    assert ' ' !in rest;
    SplitFirstChar(c, rest);
    TrimWord([c]);
    LettersNaN(rest);
  }

  /** A word typed without a space is its first letter and no id:
      `delete` is delete NaN, `list` is list NaN. */
  lemma CompactWord(c: char, rest: string)
    requires c == 'd' || c == 'l' || c == 'e'
    requires rest != [] && forall i | 0 <= i < |rest| :: 'a' <= rest[i] <= 'z'
    ensures ParseCommand([c] + rest) == Dispatch([c], None)
  {
    var line := [c] + rest;
    assert ToLower(line) == line by {
      assert forall i | 1 <= i < |line| :: line[i] == rest[i - 1];
      LowerFixed(line);
    }
    NoControlWord(line);
    ParseOrdinaryLine(line);
    SplitCompactWord(c, rest);
  }
}
