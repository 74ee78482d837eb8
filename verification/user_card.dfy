/**
 * The user card's derived values and its delete gesture: the avatar initials,
 * the link target for the user's website, and the id emitted once the
 * browser's confirmation dialog (an input here) says yes.
 */
module UserCard {
  import opened Text
  import opened UserModel

  /** `part.charAt(0)` for every part, joined: empty parts contribute nothing. */
  function FirstChars(parts: seq<string>): (r: string)
    ensures |r| <= |parts|
    decreases |parts|
  {
    if |parts| == 0 then ""
    else (if |parts[0]| > 0 then [parts[0][0]] else "") + FirstChars(parts[1..])
  }

  /** `s.slice(0, n)`. */
  function Take(s: string, n: nat): (r: string)
    ensures |r| == if |s| < n then |s| else n
    ensures r == s[..|r|]
  {
    if |s| < n then s else s[..n]
  }

  /** `userInitials()`: the upper-cased first letters of the space-separated words, at most two. */
  function UserInitials(name: string): (r: string)
    ensures |r| <= 2
    ensures forall i :: 0 <= i < |r| ==> !IsAsciiLower(r[i])
  {
    Take(Upper(FirstChars(Split(name, ' '))), 2)
  }

  /**
   * The reference reading of "the first letter of each word": the characters
   * that are not spaces and come first or right after a space, in order.
   * `atStart` says whether the previous character was a space (or there was none).
   */
  function WordStarts(s: string, atStart: bool): string
    decreases |s|
  {
    if |s| == 0 then ""
    else (if atStart && s[0] != ' ' then [s[0]] else "") + WordStarts(s[1..], s[0] == ' ')
  }

  /** Taking the first character of every part of the split finds exactly the word starts. */
  lemma {:induction false} FirstCharsAreWordStarts(s: string, atStart: bool)
    ensures atStart ==> FirstChars(Split(s, ' ')) == WordStarts(s, true)
    ensures !atStart ==> FirstChars(Split(s, ' ')[1..]) == WordStarts(s, false)
    decreases |s|
  {
    if |s| > 0 {
      var rest := Split(s[1..], ' ');
      if s[0] == ' ' {
        FirstCharsAreWordStarts(s[1..], true);
        assert Split(s, ' ') == [""] + rest;
        assert Split(s, ' ')[1..] == rest;
      } else {
        FirstCharsAreWordStarts(s[1..], false);
        var parts := [[s[0]] + rest[0]] + rest[1..];
        assert Split(s, ' ') == parts;
        assert parts[1..] == rest[1..];
        if !atStart {
          assert FirstChars(parts[1..]) == WordStarts(s[1..], false);
        }
      }
    }
  }

  /** The initials are the first two word starts of the name, upper-cased. */
  lemma InitialsAreWordStarts(name: string)
    ensures UserInitials(name) == Take(Upper(WordStarts(name, true)), 2)
  {
    FirstCharsAreWordStarts(name, true);
  }

  /** A name made of one word followed, after a space, by another word gives those words' initials. */
  lemma TwoWordInitials(first: string, second: string, rest: string)
    requires first != "" && second != "" && ' ' !in first && ' ' !in second
    requires rest == "" || rest[0] == ' '
    ensures UserInitials(first + " " + second + rest) == [UpperChar(first[0]), UpperChar(second[0])]
  {
    var name := first + " " + second + rest;
    assert name == first + [' '] + (second + rest);
    SplitWordThenRest(first, ' ', second + rest);
    var tailParts: seq<string>;
    if rest == "" {
      assert second + rest == second;
      SplitWord(second, ' ');
      tailParts := [];
    } else {
      assert second + rest == second + [' '] + rest[1..];
      SplitWordThenRest(second, ' ', rest[1..]);
      tailParts := Split(rest[1..], ' ');
    }
    var parts := Split(name, ' ');
    assert parts == [first, second] + tailParts;
    assert parts[1..] == [second] + tailParts;
    assert ([second] + tailParts)[1..] == tailParts;
    assert FirstChars(parts) == [first[0], second[0]] + FirstChars(tailParts);
  }

  /** A one-word name gives its single initial. */
  lemma OneWordInitial(word: string)
    requires word != "" && ' ' !in word
    ensures UserInitials(word) == [UpperChar(word[0])]
  {
    SplitWord(word, ' ');
    assert FirstChars([word]) == [word[0]];
  }

  /** The card's own examples: "João Silva", "João" and "João Pedro Silva Santos". */
  lemma InitialsOfTwoWords()
    ensures UserInitials("João Silva") == "JS"
  {
    assert "João" + " " + "Silva" + "" == "João Silva";
    TwoWordInitials("João", "Silva", "");
  }

  lemma InitialsOfOneWord()
    ensures UserInitials("João") == "J"
  {
    OneWordInitial("João");
  }

  lemma InitialsOfFourWords()
    ensures UserInitials("João Pedro Silva Santos") == "JP"
  {
    assert "João" + " " + "Pedro" + " Silva Santos" == "João Pedro Silva Santos";
    TwoWordInitials("João", "Pedro", " Silva Santos");
  }

  // ---------------------------------------------------------------- website link

  /** `websiteUrl()` as written: anything starting with "http" is kept, anything else gets "https://". */
  function WebsiteUrl(website: string): (r: string)
    ensures StartsWith(r, "http")
    ensures StartsWith(website, "http") ==> r == website
    ensures !StartsWith(website, "http") ==> r == "https://" + website
  {
    if StartsWith(website, "http") then website else "https://" + website
  }

  lemma WebsiteUrlIdempotent(website: string)
    ensures WebsiteUrl(WebsiteUrl(website)) == WebsiteUrl(website)
  {
  }

  /** The website carries an explicit http or https scheme. */
  predicate HasScheme(website: string) {
    StartsWith(website, "http://") || StartsWith(website, "https://")
  }

  /** A host whose name begins with "http" is kept without a scheme, so the link is relative. */
  lemma WebsiteUrlKeepsSchemelessHost()
    ensures WebsiteUrl("httpbin.org") == "httpbin.org"
    ensures !HasScheme(WebsiteUrl("httpbin.org"))
  {
    assert "httpbin.org"[..4] == "http";
    assert "httpbin.org"[4] != "http://"[4] && "httpbin.org"[4] != "https://"[4];
  }

  /** The link target with the scheme test the card's tests describe: only a real scheme is kept. */
  function WebsiteUrlWithScheme(website: string): (r: string)
    ensures HasScheme(r)
    ensures HasScheme(website) ==> r == website
    ensures !HasScheme(website) ==> r == "https://" + website
  {
    if HasScheme(website) then website else "https://" + website
  }

  lemma WebsiteUrlWithSchemeIdempotent(website: string)
    ensures WebsiteUrlWithScheme(WebsiteUrlWithScheme(website)) == WebsiteUrlWithScheme(website)
  {
  }

  /** The two versions agree except on scheme-less hosts whose names begin with "http". */
  lemma WebsiteUrlVersionsAgree(website: string)
    ensures WebsiteUrl(website) != WebsiteUrlWithScheme(website) <==> StartsWith(website, "http") && !HasScheme(website)
  {
    if StartsWith(website, "http://") {
      assert website[..4] == website[..7][..4];
    } else if StartsWith(website, "https://") {
      assert website[..4] == website[..8][..4];
    }
    if StartsWith(website, "http") && !HasScheme(website) {
      assert |"https://" + website| > |website|;
    }
  }

  // ---------------------------------------------------------------- delete

  datatype DeleteOutcome = DeleteOutcome(prompt: string, emitted: seq<int>)

  /** `onDelete()`: asks for confirmation by name and emits the user's id only when confirmed. */
  function OnDelete(u: User, confirmed: bool): (out: DeleteOutcome)
    ensures out.prompt == "Tem certeza que deseja excluir " + u.name + "?"
    ensures confirmed ==> out.emitted == [u.id]
    ensures !confirmed ==> out.emitted == []
  {
    DeleteOutcome("Tem certeza que deseja excluir " + u.name + "?", if confirmed then [u.id] else [])
  }
}
