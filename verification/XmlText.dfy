/** The narrow text scanner a listing page is read with, beside the document it stands for. `src/objects.rs`. */
module XmlText {
  import opened Prelude

  // ------------------------------------------------------------------------------------------------------- the scanner

  /** Where a pattern occurs first. */
  function Find(text: string, pattern: string): (at: Option<nat>)
    ensures at.Some? ==> at.value + |pattern| <= |text|
  {
    if pattern <= text then Some(0)
    else if text == [] then None
    else Shifted(Find(text[1..], pattern), 1)
  }

  function Shifted(at: Option<nat>, distance: nat): Option<nat>
  {
    match at
    case Some(n) => Some(n + distance)
    case None => None
  }

  lemma FindStep(text: string, pattern: string)
    requires text != [] && !(pattern <= text)
    ensures Find(text, pattern) == Shifted(Find(text[1..], pattern), 1)
  {
  }

  function Angle(name: string): string
  {
    "<" + name + ">"
  }

  /** The text of the first `<tag>...</tag>`. */
  function Element(text: string, tag: string): Option<string>
  {
    match Find(text, Angle(tag))
    case None => None
    case Some(start) =>
      var rest := text[start + |Angle(tag)|..];
      match Find(rest, Angle("/" + tag))
      case None => None
      case Some(end) => Some(rest[..end])
  }

  /** The parts of a text between occurrences of a pattern. */
  function Split(text: string, pattern: string): (parts: seq<string>)
    requires pattern != []
    ensures parts != []
  {
    match Find(text, pattern)
    case None => [text]
    case Some(at) => [text[..at]] + Split(text[at + |pattern|..], pattern)
  }

  predicate StandsAt(text: string, pattern: string, at: nat)
  {
    at + |pattern| <= |text| && text[at..at + |pattern|] == pattern
  }

  predicate StandsFirst(text: string, pattern: string, at: nat)
  {
    StandsAt(text, pattern, at) && forall before: nat :: before < at ==> !StandsAt(text, pattern, before)
  }

  lemma StandsLater(text: string, pattern: string, at: nat)
    requires text != []
    ensures StandsAt(text, pattern, at + 1) <==> StandsAt(text[1..], pattern, at)
  {
    if at + 1 + |pattern| <= |text| {
      var here, there := text[at + 1..at + 1 + |pattern|], text[1..][at..at + |pattern|];
      assert |here| == |there| && forall i :: 0 <= i < |here| ==> here[i] == text[at + 1 + i] == there[i];
      assert here == there;
    }
  }

  lemma FirstLater(text: string, pattern: string, at: nat)
    requires text != [] && !StandsAt(text, pattern, 0)
    ensures StandsFirst(text, pattern, at + 1) <==> StandsFirst(text[1..], pattern, at)
  {
    hide StandsAt;
    StandsLater(text, pattern, at);
    forall before: nat
      ensures StandsAt(text[1..], pattern, before) <==> StandsAt(text, pattern, before + 1)
    {
      StandsLater(text, pattern, before);
    }
    assert forall before: nat :: before > 0 ==>
        (StandsAt(text, pattern, before) <==> StandsAt(text[1..], pattern, before - 1));
  }

  lemma StandsNow(text: string, pattern: string)
    ensures StandsAt(text, pattern, 0) <==> pattern <= text
    ensures pattern <= text ==> Find(text, pattern) == Some(0)
  {
    if |pattern| <= |text| {
      assert text[0..|pattern|] == text[..|pattern|];
    }
  }

  lemma {:induction false} FindIff(text: string, pattern: string, at: nat)
    ensures Find(text, pattern) == Some(at) <==> StandsFirst(text, pattern, at)
  {
    StandsNow(text, pattern);
    if text == [] {
      if pattern != [] {
        NotInNothing(pattern, at);
      }
    } else if !(pattern <= text) {
      FindStep(text, pattern);
      hide Find, StandsAt;
      if at > 0 {
        hide StandsFirst;
        FindIff(text[1..], pattern, at - 1);
        FirstLater(text, pattern, at - 1);
      }
    }
  }

  lemma NotInNothing(pattern: string, at: nat)
    requires pattern != []
    ensures !StandsAt([], pattern, at)
  {
  }

  lemma {:induction false} FindsSome(text: string, pattern: string, at: nat)
    requires StandsAt(text, pattern, at)
    ensures Find(text, pattern).Some?
  {
    if at > 0 && !(pattern <= text) {
      StandsLater(text, pattern, at - 1);
      FindsSome(text[1..], pattern, at - 1);
    }
  }

  /** The rest of a text after an opening tag goes on with `inner`, up to the first closing tag. */
  predicate IsInner(rest: string, tag: string, inner: string)
  {
    inner <= rest && StandsFirst(rest, "</" + tag + ">", |inner|)
  }

  /** An element is what stands between its first opening tag and the first closing tag after that; where one of them is
      missing there is none. */
  lemma ElementIff(text: string, tag: string, inner: string)
    ensures Element(text, tag) == Some(inner) <==>
              exists start: nat ::
                && start + |tag| + 2 <= |text| && StandsFirst(text, "<" + tag + ">", start)
                && IsInner(text[start + |tag| + 2..], tag, inner)
  {
    hide Find, StandsFirst;
    var close := "</" + tag + ">";
    assert Angle("/" + tag) == close;
    forall at: nat
      ensures Find(text, Angle(tag)) == Some(at) <==> StandsFirst(text, "<" + tag + ">", at)
    {
      FindIff(text, Angle(tag), at);
    }
    match Find(text, Angle(tag))
    case None =>
    case Some(start) =>
      var rest := text[start + |tag| + 2..];
      FindIff(rest, close, |inner|);
      if Element(text, tag) == Some(inner) {
        assert IsInner(rest, tag, inner);
      }
      if IsInner(rest, tag, inner) {
        assert rest[..|inner|] == inner;
      }
  }

  /** The parts with the pattern between each and the next. */
  function Joined(parts: seq<string>, pattern: string): string
    requires parts != []
  {
    if |parts| == 1 then parts[0] else parts[0] + pattern + Joined(parts[1..], pattern)
  }

  lemma FirstPart(text: string, pattern: string, end: nat, at: nat)
    requires end <= |text| && StandsAt(text[..end], pattern, at)
    ensures StandsAt(text, pattern, at)
  {
    assert text[..end][at..at + |pattern|] == text[at..at + |pattern|];
  }

  /** Splitting takes a text apart at a pattern that stands in none of the parts. */
  lemma {:induction false} SplitApart(text: string, pattern: string)
    requires pattern != []
    ensures Joined(Split(text, pattern), pattern) == text
    ensures forall i, at: nat :: 0 <= i < |Split(text, pattern)| ==> !StandsAt(Split(text, pattern)[i], pattern, at)
    decreases |text|
  {
    hide Find;
    match Find(text, pattern)
    case None =>
      forall at: nat
        ensures !StandsAt(text, pattern, at)
      {
        if StandsAt(text, pattern, at) {
          FindsSome(text, pattern, at);
        }
      }
    case Some(found) =>
      var rest := text[found + |pattern|..];
      FindIff(text, pattern, found);
      SplitApart(rest, pattern);
      assert Split(text, pattern)[1..] == Split(rest, pattern);
      forall at: nat
        ensures !StandsAt(text[..found], pattern, at)
      {
        if StandsAt(text[..found], pattern, at) {
          FirstPart(text, pattern, found, at);
        }
      }
      assert text == text[..found] + pattern + rest;
  }

  // ---------------------------------------------------------------------------------------------------------- entities

  /** The entity a text starts with, and the character it stands for. */
  function EntityAt(text: string): (found: Option<(string, char)>)
    ensures found.Some? ==> found.value.0 <= text && |found.value.0| > 1
  {
    if "&amp;" <= text then Some(("&amp;", '&'))
    else if "&lt;" <= text then Some(("&lt;", '<'))
    else if "&gt;" <= text then Some(("&gt;", '>'))
    else if "&quot;" <= text then Some(("&quot;", '"'))
    else if "&apos;" <= text then Some(("&apos;", '\''))
    else None
  }

  function Prepended(before: string, text: Option<string>): Option<string>
  {
    match text
    case Some(rest) => Some(before + rest)
    case None => None
  }

  lemma PrependedTwice(a: string, b: string, text: Option<string>)
    ensures Prepended(a, Prepended(b, text)) == Prepended(a + b, text)
    ensures Prepended([], text) == text
  {
    if text.Some? {
      assert a + (b + text.value) == a + b + text.value;
      assert [] + text.value == text.value;
    }
  }

  /** Text with every entity replaced, or none where an ampersand starts no known entity. */
  function Unescaped(text: string): Option<string>
  {
    if text == [] then Some([])
    else if text[0] != '&' then Prepended([text[0]], Unescaped(text[1..]))
    else
      match EntityAt(text)
      case None => None
      case Some((entity, c)) => Prepended([c], Unescaped(text[|entity|..]))
  }

  lemma {:induction false} UnescapedPlain(plain: string, rest: string)
    requires '&' !in plain
    ensures Unescaped(plain + rest) == Prepended(plain, Unescaped(rest))
  {
    hide EntityAt;
    PrependedTwice([], [], Unescaped(rest));
    if plain == [] {
      assert plain + rest == rest;
    } else {
      UnescapedPlain(plain[1..], rest);
      assert (plain + rest)[1..] == plain[1..] + rest;
      PrependedTwice([plain[0]], plain[1..], Unescaped(rest));
      assert plain == [plain[0]] + plain[1..];
    }
  }

  /** Where a character occurs first. */
  function IndexOf(text: string, c: char): (at: Option<nat>)
    ensures at.Some? ==> at.value < |text| && text[at.value] == c && c !in text[..at.value]
    ensures at.None? ==> c !in text
  {
    if text == [] then None
    else if text[0] == c then Some(0)
    else
      match IndexOf(text[1..], c)
      case Some(at) =>
        assert text[..at + 1] == [text[0]] + text[1..][..at];
        Some(at + 1)
      case None => None
  }

  /** Copies what stands before each ampersand and replaces the entity there. */
  method Unescape(text: string) returns (result: Option<string>)
    ensures result == Unescaped(text)
  {
    hide EntityAt, IndexOf;
    assert Unescaped([]) == Some([]);
    if '&' !in text {
      UnescapedPlain(text, []);
      assert text + [] == text;
      return Some(text);
    }
    var out, rest := "", text;
    PrependedTwice([], [], Unescaped(text));
    while IndexOf(rest, '&').Some?
      invariant Unescaped(text) == Prepended(out, Unescaped(rest))
      decreases |rest|
    {
      var index := IndexOf(rest, '&').value;
      var before, tail := rest[..index], rest[index..];
      assert rest == before + tail;
      UnescapedPlain(before, tail);
      var entity := EntityAt(tail);
      if entity.None? {
        return None;
      }
      var after := tail[|entity.value.0|..];
      PrependedTwice(before, [entity.value.1], Unescaped(after));
      PrependedTwice(out, before + [entity.value.1], Unescaped(after));
      assert out + (before + [entity.value.1]) == out + before + [entity.value.1];
      out := out + before + [entity.value.1];
      rest := after;
    }
    UnescapedPlain(rest, []);
    assert rest + [] == rest;
    return Some(out + rest);
  }

  /** How a server writes one character: the two it has to, and any others of the five, as entities. */
  function EscapedChar(c: char, also: char -> bool): string
  {
    if c == '&' then "&amp;"
    else if c == '<' then "&lt;"
    else if c == '>' && also(c) then "&gt;"
    else if c == '"' && also(c) then "&quot;"
    else if c == '\'' && also(c) then "&apos;"
    else [c]
  }

  function Escaped(text: string, also: char -> bool): string
  {
    if text == [] then [] else EscapedChar(text[0], also) + Escaped(text[1..], also)
  }

  lemma UnescapesChar(c: char, also: char -> bool, rest: string)
    ensures Unescaped(EscapedChar(c, also) + rest) == Prepended([c], Unescaped(rest))
  {
    var text := EscapedChar(c, also) + rest;
    if |EscapedChar(c, also)| == 1 {
      assert text[1..] == rest && text[0] == c;
    } else {
      assert text[0] == '&';
      assert EscapedChar(c, also) <= text;
      assert text[|EscapedChar(c, also)|..] == rest;
      assert text[1] == EscapedChar(c, also)[1] && text[2] == EscapedChar(c, also)[2];
      assert EntityAt(text) == Some((EscapedChar(c, also), c));
    }
  }

  /** Reading what was written gives the text back, whichever of the optional entities the writer uses. */
  lemma {:induction false} UnescapeEscaped(text: string, also: char -> bool)
    ensures Unescaped(Escaped(text, also)) == Some(text)
  {
    if text != [] {
      UnescapeEscaped(text[1..], also);
      UnescapesChar(text[0], also, Escaped(text[1..], also));
      assert text == [text[0]] + text[1..];
    }
  }

  lemma {:induction false} EscapedIsPlain(text: string, also: char -> bool)
    ensures '<' !in Escaped(text, also)
  {
    if text != [] {
      EscapedIsPlain(text[1..], also);
    }
  }

  // ---------------------------------------------------------------------------------------- the document it stands for

  /** A flat document: tags, and text between them. */
  datatype Token = Tag(name: string) | Text(text: string)

  function TokenText(token: Token): string
  {
    match token
    case Tag(name) => Angle(name)
    case Text(text) => text
  }

  function Render(tokens: seq<Token>): string
  {
    if tokens == [] then [] else TokenText(tokens[0]) + Render(tokens[1..])
  }

  /** Text has no angle bracket in it, and neither has a tag inside its own. */
  predicate Tidy(token: Token)
  {
    match token
    case Tag(name) => '<' !in name && '>' !in name
    case Text(text) => '<' !in text
  }

  predicate AllTidy(tokens: seq<Token>)
  {
    forall i :: 0 <= i < |tokens| ==> Tidy(tokens[i])
  }

  /** Where a tag stands first. */
  function FirstTag(tokens: seq<Token>, name: string): (at: Option<nat>)
    ensures at.Some? ==> at.value < |tokens| && tokens[at.value] == Tag(name) && Tag(name) !in tokens[..at.value]
    ensures at.None? <==> Tag(name) !in tokens
  {
    if tokens == [] then None
    else if tokens[0] == Tag(name) then Some(0)
    else
      match FirstTag(tokens[1..], name)
      case Some(at) =>
        assert tokens[..at + 1] == [tokens[0]] + tokens[1..][..at];
        Some(at + 1)
      case None => None
  }

  /** Text with no angle bracket in it is passed over. */
  lemma {:induction false} FindPast(plain: string, rest: string, name: string)
    requires '<' !in plain
    ensures Find(plain + rest, Angle(name)) == Shifted(Find(rest, Angle(name)), |plain|)
  {
    hide Find;
    if plain == [] {
      assert plain + rest == rest;
    } else {
      FindPast(plain[1..], rest, name);
      assert (plain + rest)[1..] == plain[1..] + rest;
      OtherStart(plain + rest, name);
      FindStep(plain + rest, Angle(name));
    }
  }

  lemma OtherStart(text: string, name: string)
    requires text != [] && text[0] != '<'
    ensures !(Angle(name) <= text)
  {
    assert Angle(name)[0] == '<';
  }

  /** A tag matches a pattern only when it is the tag that is looked for. */
  lemma TagMatches(name: string, rest: string, wanted: string)
    requires '>' !in name && '>' !in wanted
    ensures Angle(wanted) <= Angle(name) + rest <==> name == wanted
  {
    var text, pattern := Angle(name) + rest, Angle(wanted);
    assert text[|name| + 1] == '>' && forall i :: 0 <= i < |name| ==> text[i + 1] == name[i] != '>';
    assert pattern[|wanted| + 1] == '>' && forall i :: 0 <= i < |wanted| ==> pattern[i + 1] == wanted[i] != '>';
    if pattern <= text {
      assert pattern[|wanted| + 1] == text[|wanted| + 1];
      assert |name| <= |wanted|;
      assert |wanted| <= |name|;
      assert name == wanted by {
        assert forall i :: 0 <= i < |name| ==> name[i] == text[i + 1] == pattern[i + 1];
      }
    }
    if name == wanted {
      assert text == pattern + rest;
    }
  }

  lemma FindPastTag(name: string, rest: string, wanted: string)
    requires Tidy(Tag(name)) && '>' !in wanted && name != wanted
    ensures Find(Angle(name) + rest, Angle(wanted)) == Shifted(Find(rest, Angle(wanted)), |name| + 2)
  {
    hide Find;
    TagMatches(name, rest, wanted);
    var text := Angle(name) + rest;
    FindStep(text, Angle(wanted));
    assert text[1..] == (name + ">") + rest;
    FindPast(name + ">", rest, wanted);
  }

  lemma FindHere(name: string, rest: string)
    ensures Find(Angle(name) + rest, Angle(name)) == Some(0)
  {
    assert Angle(name) <= Angle(name) + rest;
  }

  /** How far into the text the first tag of a name is. */
  function Offset(tokens: seq<Token>, name: string): Option<nat>
  {
    match FirstTag(tokens, name)
    case None => None
    case Some(at) => Some(|Render(tokens[..at])|)
  }

  lemma OffsetStep(tokens: seq<Token>, name: string)
    requires tokens != [] && tokens[0] != Tag(name)
    ensures Offset(tokens, name) == Shifted(Offset(tokens[1..], name), |TokenText(tokens[0])|)
  {
    hide Render, FirstTag, TokenText;
    FirstTagStep(tokens, name);
    if FirstTag(tokens[1..], name).Some? {
      RenderStep(tokens, FirstTag(tokens[1..], name).value);
    }
  }

  lemma FirstTagStep(tokens: seq<Token>, name: string)
    requires tokens != [] && tokens[0] != Tag(name)
    ensures FirstTag(tokens, name) == Shifted(FirstTag(tokens[1..], name), 1)
  {
  }

  lemma RenderStep(tokens: seq<Token>, n: nat)
    requires n < |tokens|
    ensures Render(tokens[..n + 1]) == TokenText(tokens[0]) + Render(tokens[1..][..n])
  {
    hide TokenText;
    assert tokens[..n + 1][1..] == tokens[1..][..n];
  }

  /** The scanner finds a tag exactly where the document has it first. */
  lemma {:induction false} FindTag(tokens: seq<Token>, name: string)
    requires AllTidy(tokens) && '>' !in name
    ensures Find(Render(tokens), Angle(name)) == Offset(tokens, name)
  {
    if tokens == [] {
      assert !(Angle(name) <= []);
    } else {
      hide Find, Offset, Angle;
      FindTag(tokens[1..], name);
      var rest := Render(tokens[1..]);
      if tokens[0] == Tag(name) {
        FindHere(name, rest);
        FirstOffset(tokens, name);
      } else {
        OffsetStep(tokens, name);
        match tokens[0]
        case Text(text) => FindPast(text, rest, name);
        case Tag(other) =>
          FindPastTag(other, rest, name);
          assert |TokenText(tokens[0])| == |other| + 2 by { AngleSize(other); }
      }
    }
  }

  lemma AngleSize(name: string)
    ensures |Angle(name)| == |name| + 2
  {
  }

  lemma FirstOffset(tokens: seq<Token>, name: string)
    requires tokens != [] && tokens[0] == Tag(name)
    ensures Offset(tokens, name) == Some(0)
  {
  }

  lemma {:induction false} RenderConcat(a: seq<Token>, b: seq<Token>)
    ensures Render(a + b) == Render(a) + Render(b)
  {
    if a == [] {
      assert a + b == b;
    } else {
      RenderConcat(a[1..], b);
      RenderOneMore(a, b);
      RenderFirst(a);
      hide Render, TokenText;
      Reassociated(TokenText(a[0]), Render(a[1..]), Render(b));
    }
  }

  lemma RenderFirst(tokens: seq<Token>)
    requires tokens != []
    ensures Render(tokens) == TokenText(tokens[0]) + Render(tokens[1..])
  {
  }

  lemma RenderOneMore(a: seq<Token>, b: seq<Token>)
    requires a != []
    ensures Render(a + b) == TokenText(a[0]) + Render(a[1..] + b)
  {
    hide TokenText;
    assert (a + b)[1..] == a[1..] + b;
  }

  lemma Reassociated(a: string, b: string, c: string)
    ensures a + b + c == a + (b + c)
  {
  }

  /** The first tag of a name, where nothing before it has that name. */
  lemma FirstTagAt(before: seq<Token>, name: string, after: seq<Token>)
    requires Tag(name) !in before
    ensures FirstTag(before + [Tag(name)] + after, name) == Some(|before|)
  {
    var tokens := before + [Tag(name)] + after;
    assert tokens[|before|] == Tag(name);
    assert forall i :: 0 <= i < |before| ==> tokens[i] == before[i] && before[i] in before;
    var at := FirstTag(tokens, name).value;
    assert forall i :: 0 <= i < at ==> tokens[i] == tokens[..at][i];
  }

  /** The text splits where the document has a tag. */
  lemma FindAt(before: seq<Token>, name: string, after: seq<Token>)
    requires AllTidy(before) && AllTidy(after) && Tidy(Tag(name)) && Tag(name) !in before
    ensures var text := Render(before + [Tag(name)] + after);
            && Find(text, Angle(name)) == Some(|Render(before)|)
            && text[..|Render(before)|] == Render(before)
            && text[|Render(before)| + |Angle(name)|..] == Render(after)
  {
    hide Find, Render, Angle;
    var tokens := before + [Tag(name)] + after;
    FirstTagAt(before, name, after);
    FindTag(tokens, name);
    assert tokens[..|before|] == before;
    RenderAround(before, name, after);
  }

  lemma RenderAround(before: seq<Token>, name: string, after: seq<Token>)
    ensures Render(before + [Tag(name)] + after) == Render(before) + Angle(name) + Render(after)
  {
    RenderConcat(before + [Tag(name)], after);
    RenderConcat(before, [Tag(name)]);
    assert Render([Tag(name)]) == Angle(name) + Render([]) == Angle(name);
    hide Render, Angle;
  }

  /** The scanner reads the text between a tag and the one that closes it. */
  lemma ElementIn(before: seq<Token>, name: string, inner: string, after: seq<Token>)
    requires AllTidy(before) && AllTidy(after) && Tidy(Tag(name)) && Tidy(Text(inner)) && Tag(name) !in before
    ensures Element(Render(before + [Tag(name), Text(inner), Tag("/" + name)] + after), name) == Some(inner)
  {
    hide Find, Render, Split, Angle, Element, AllTidy, Tidy;
    var close := "/" + name;
    var rest := [Text(inner)] + [Tag(close)] + after;
    ElementTidy(name, inner, after);
    FindAt(before, name, rest);
    FindAt([Text(inner)], close, after);
    RenderText(inner);
    ElementAt(Render(before + [Tag(name)] + rest), name, |Render(before)|, |inner|);
    Regroup(before, Tag(name), Text(inner), Tag(close), after);
  }

  lemma Regroup(before: seq<Token>, a: Token, b: Token, c: Token, after: seq<Token>)
    ensures before + [a, b, c] + after == before + [a] + ([b] + [c] + after)
  {
  }

  lemma ElementAt(text: string, name: string, start: nat, end: nat)
    requires Find(text, Angle(name)) == Some(start)
    requires Find(text[start + |Angle(name)|..], Angle("/" + name)) == Some(end)
    ensures Element(text, name) == Some(text[start + |Angle(name)|..][..end])
  {
    hide Find, Angle;
  }

  lemma ElementTidy(name: string, inner: string, after: seq<Token>)
    requires AllTidy(after) && Tidy(Tag(name)) && Tidy(Text(inner))
    ensures AllTidy([Text(inner)] + [Tag("/" + name)] + after) && AllTidy([Text(inner)]) && Tidy(Tag("/" + name))
    ensures Tag("/" + name) !in [Text(inner)]
  {
  }

  lemma RenderText(text: string)
    ensures Render([Text(text)]) == text
  {
    assert Render([Text(text)]) == text + Render([]);
  }

  lemma SplitAt(before: seq<Token>, name: string, after: seq<Token>)
    requires AllTidy(before) && AllTidy(after) && Tidy(Tag(name)) && Tag(name) !in before
    ensures Split(Render(before + [Tag(name)] + after), Angle(name))
         == [Render(before)] + Split(Render(after), Angle(name))
  {
    hide Find, Render, Angle, AllTidy, Tidy;
    FindAt(before, name, after);
  }

  lemma SplitNowhere(tokens: seq<Token>, name: string)
    requires AllTidy(tokens) && '>' !in name && Tag(name) !in tokens
    ensures Split(Render(tokens), Angle(name)) == [Render(tokens)]
  {
    FindTag(tokens, name);
  }
}
