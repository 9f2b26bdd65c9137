/** The normalized name of a segment: its words, one space between each two. */
module Names {
  import opened Outcomes
  import opened Draft

  /** The words of a text, `begun` being what has been read of the current one. */
  function Words(s: string, begun: string): seq<string> {
    if s == "" then Finished(begun)
    else if IsSpace(s[0]) then Finished(begun) + Words(s[1..], "")
    else Words(s[1..], begun + [s[0]])
  }

  function Finished(word: string): seq<string> {
    if word == "" then [] else [word]
  }

  /** Words in a row. */
  function Spaced(words: seq<string>): string {
    if words == [] then "" else if |words| == 1 then words[0] else words[0] + " " + Spaced(words[1..])
  }

  lemma {:induction false} WithinWord(s: string, word: string)
    requires word != ""
    ensures Words(s, word) != [] && Spaced(Words(s, word)) == word + Squeezed(s, true, false)
  {
    if s == "" {
    } else if IsSpace(s[0]) {
      BetweenWords(s[1..]);
      var rest := Words(s[1..], "");
      assert ([word] + rest)[1..] == rest;
    } else {
      WithinWord(s[1..], word + [s[0]]);
      assert word + [s[0]] + Squeezed(s[1..], true, false) == word + ([s[0]] + Squeezed(s[1..], true, false));
    }
  }

  lemma {:induction false} BetweenWords(s: string)
    ensures Squeezed(s, true, true) == if Words(s, "") == [] then "" else " " + Spaced(Words(s, ""))
  {
    if s == "" {
    } else if IsSpace(s[0]) {
      BetweenWords(s[1..]);
      assert Finished("") + Words(s[1..], "") == Words(s[1..], "");
    } else {
      WithinWord(s[1..], [s[0]]);
      assert "" + [s[0]] == [s[0]];
      assert [' ', s[0]] + Squeezed(s[1..], true, false) == " " + ([s[0]] + Squeezed(s[1..], true, false));
    }
  }

  /** Leading and trailing white space goes, and each run of it within becomes one space. */
  lemma {:induction false} SqueezedIsSpaced(s: string, gap: bool)
    ensures Squeezed(s, false, gap) == Spaced(Words(s, ""))
  {
    if s == "" {
    } else if IsSpace(s[0]) {
      SqueezedIsSpaced(s[1..], true);
      assert Finished("") + Words(s[1..], "") == Words(s[1..], "");
    } else {
      WithinWord(s[1..], [s[0]]);
      assert "" + [s[0]] == [s[0]];
    }
  }

  /** Exactly when a name is accepted, and what it becomes: its words, in order,
      one space between each two. */
  lemma NormalizedIsWords(name: string)
    ensures var text := Spaced(Words(name, ""));
            NormalizeSegmentName(name)
            == if 1 <= |text| <= 80 && forall k | 0 <= k < |text| :: !IsUnsafe(text[k]) then Ok(text) else TypeError
  {
    SqueezedIsSpaced(name, false);
  }

  /** An accepted name holds no control character, no mark or override of the
      writing direction, and no white space but single spaces between words. */
  lemma AcceptedIsPrintable(name: string)
    requires NormalizeSegmentName(name).Ok?
    ensures var v := NormalizeSegmentName(name).value;
            && v[0] != ' ' && v[|v| - 1] != ' '
            && forall k | 0 <= k < |v| ::
                 var u := v[k] as int;
                 && u >= 32 && !(0x7F <= u <= 0x9F) && u != 0x61C && u != 0x200E && u != 0x200F
                 && !(0x202A <= u <= 0x202E) && !(0x2066 <= u <= 0x2069)
                 && (v[k] != ' ' ==>
                       && u != 0xA0 && u != 0x1680 && !(0x2000 <= u <= 0x200A) && u != 0x2028 && u != 0x2029
                       && u != 0x202F && u != 0x205F && u != 0x3000 && u != 0xFEFF)
  {
    SqueezedSpaces(name, false, false);
  }

  /** Spaces are the only white space that is left, none at the end, and none at
      the start unless a word went before. */
  lemma {:induction false} SqueezedSpaces(s: string, begun: bool, gap: bool)
    ensures var v := Squeezed(s, begun, gap);
            && (forall k | 0 <= k < |v| :: IsSpace(v[k]) ==> v[k] == ' ')
            && (v != "" ==> v[|v| - 1] != ' ' && (!begun ==> v[0] != ' '))
  {
    if s != "" {
      if IsSpace(s[0]) {
        SqueezedSpaces(s[1..], begun, true);
      } else {
        SqueezedSpaces(s[1..], true, false);
        assert IsSpace(' ');
        var start := if begun && gap then [' ', s[0]] else [s[0]];
        BehindCharacter(start, Squeezed(s[1..], true, false));
        assert Squeezed(s, begun, gap) == start + Squeezed(s[1..], true, false);
      }
    }
  }

  lemma BehindCharacter(start: string, rest: string)
    requires start != "" && !IsSpace(start[|start| - 1])
    requires forall k | 0 <= k < |start| :: IsSpace(start[k]) ==> start[k] == ' '
    requires forall k | 0 <= k < |rest| :: IsSpace(rest[k]) ==> rest[k] == ' '
    requires rest != "" ==> rest[|rest| - 1] != ' '
    ensures var v := start + rest;
            && (forall k | 0 <= k < |v| :: IsSpace(v[k]) ==> v[k] == ' ')
            && v[|v| - 1] != ' ' && v[0] == start[0]
  {
  }

  /** Tabs, line breaks and other white space separate words. */
  lemma WhiteSpaceSeparates(c: char)
    requires var u := c as int;
             || 9 <= u <= 13 || u == 32 || u == 0xA0 || u == 0x1680 || 0x2000 <= u <= 0x200A || u == 0x2028
             || u == 0x2029 || u == 0x202F || u == 0x205F || u == 0x3000 || u == 0xFEFF
    ensures NormalizeSegmentName(['a', c, c, 'b', c]) == Ok("a b")
  {
    var s := ['a', c, c, 'b', c];
    assert s[1..] == [c, c, 'b', c] && [c, c, 'b', c][1..] == [c, 'b', c] && [c, 'b', c][1..] == ['b', c];
    assert ['b', c][1..] == [c] && [c][1..] == "";
    assert Squeezed([c], true, false) == Squeezed("", true, true) == "";
    assert Squeezed(['b', c], true, true) == [' ', 'b'] + Squeezed([c], true, false);
    assert Squeezed([c, 'b', c], true, true) == Squeezed(['b', c], true, true);
    assert Squeezed([c, c, 'b', c], true, false) == Squeezed([c, 'b', c], true, true);
    assert Squeezed(s, false, false) == ['a'] + Squeezed([c, c, 'b', c], true, false);
    assert ['a'] + ([' ', 'b'] + "") == "a b";
  }
}
