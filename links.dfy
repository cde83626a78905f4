/** The usual optional value. */
module Optional {
  datatype Option<T> = None | Some(value: T)
}

/**
 * The markdown link rewriter of plugin.py (`on_page_markdown` and its
 * callback `replace_link`). `re.sub` scans the body from left to right for
 * the link pattern `\[([^\]]+)\]\(([^)]+\.md(?:#[^)]*)?)\)`; at a match it
 * emits the callback's text and resumes after the match, otherwise it
 * copies one character and moves on.
 *
 * Read deterministically, a match at the head of the text is: '[', a
 * non-empty link text running up to the first ']', then '(', then a target
 * running up to the first ')'; the target must hold ".md" after at least
 * one character, followed by the end of the target or by '#'. Whatever the
 * backtracking does inside the target, the captured target is the whole
 * text between the brackets, so only that condition matters.
 */
module Links {
  import opened Optional
  import opened Prefix
  import opened PurePaths
  import opened PathRewrite

  /** The index of the first `c` in `s`, if any. */
  function Find(s: string, c: char): (r: Option<nat>)
    ensures r.Some? ==> r.value < |s| && s[r.value] == c && c !in s[..r.value]
    ensures r.None? ==> c !in s
  {
    if s == [] then None
    else if s[0] == c then Some(0)
    else match Find(s[1..], c)
      case None => None
      case Some(k) =>
        assert s[..k + 1] == [s[0]] + s[1..][..k];
        Some(k + 1)
  }

  datatype Link = Link(text: string, target: string)

  /** The text a link occupies in the body, `[text](target)`: `match.group(0)`. */
  function Original(l: Link): string {
    "[" + l.text + "](" + l.target + ")"
  }

  /** After at least one character, ".md" stands at `p`, ending the target or followed by '#'. */
  predicate MdAt(t: string, p: nat) {
    1 <= p && p + 3 <= |t| && t[p..p + 3] == ".md" && (p + 3 == |t| || t[p + 3] == '#')
  }

  /** The target part of the pattern, `[^)]+\.md(?:#[^)]*)?`, for a `t` without ')'. */
  predicate IsMdTarget(t: string) {
    exists p: nat :: p < |t| && MdAt(t, p)
  }

  /** What the whole pattern demands of a link text and a target. */
  predicate IsLink(l: Link) {
    l.text != "" && ']' !in l.text && ')' !in l.target && IsMdTarget(l.target)
  }

  /** The link matched at the head of `s`, if the pattern matches there. */
  function MatchLink(s: string): (r: Option<Link>)
    ensures r.Some? ==> IsLink(r.value) && |Original(r.value)| <= |s| && s[..|Original(r.value)|] == Original(r.value)
  {
    if s == [] || s[0] != '[' then None
    else match Find(s[1..], ']')
      case None => None
      case Some(j) =>
        if j == 0 || j + 2 >= |s| || s[j + 2] != '(' then None
        else match Find(s[j + 3..], ')')
          case None => None
          case Some(k) =>
            var l := Link(s[1..j + 1], s[j + 3..j + 3 + k]);
            if IsMdTarget(l.target) then
              assert s[1..][..j] == l.text;
              assert s[j + 3..][..k] == l.target;
              assert s[..|Original(l)|] == Original(l);
              Some(l)
            else None
  }

  /** `link_path.split("#", 1)`, with the '#' kept on the anchor; no anchor gives "". */
  function SplitAnchor(target: string): (r: (string, string))
    ensures target == r.0 + r.1
    ensures '#' !in r.0
    ensures r.1 == [] || r.1[0] == '#'
  {
    match Find(target, '#')
      case None => (target, "")
      case Some(k) =>
        assert target == target[..k] + target[k..];
        (target[..k], target[k..])
  }

  /** `replace_link`: a link whose file name carries a prefix loses it; any other is kept. */
  function Rewritten(l: Link): string {
    var (pathPart, anchor) := SplitAnchor(l.target);
    if IsPrefixed(FileName(pathPart)) then "[" + l.text + "](" + (NewPath(pathPart) + anchor) + ")"
    else Original(l)
  }

  /** `link_pattern.sub(replace_link, s)`. */
  function RewriteLinks(s: string): string
    decreases |s|
  {
    if s == [] then []
    else match MatchLink(s)
      case Some(l) => Rewritten(l) + RewriteLinks(s[|Original(l)|..])
      case None => [s[0]] + RewriteLinks(s[1..])
  }

  /** The body read as `re.sub` walks it: single characters and matched links. */
  datatype Token = Plain(c: char) | LinkToken(link: Link)

  function Tokenize(s: string): (ts: seq<Token>)
    ensures forall i :: 0 <= i < |ts| && ts[i].LinkToken? ==> IsLink(ts[i].link)
    decreases |s|
  {
    if s == [] then []
    else match MatchLink(s)
      case Some(l) => [LinkToken(l)] + Tokenize(s[|Original(l)|..])
      case None => [Plain(s[0])] + Tokenize(s[1..])
  }

  /** The text the tokens were read from. */
  function Source(ts: seq<Token>): string {
    if ts == [] then []
    else (match ts[0] case Plain(c) => [c] case LinkToken(l) => Original(l)) + Source(ts[1..])
  }

  /** The text the rewriter emits for the tokens. */
  function Render(ts: seq<Token>): string {
    if ts == [] then []
    else (match ts[0] case Plain(c) => [c] case LinkToken(l) => Rewritten(l)) + Render(ts[1..])
  }

  /** The position of a character in `s` follows the first `c`. */
  lemma {:induction false} FindIs(s: string, c: char, k: nat)
    requires k < |s| && s[k] == c && c !in s[..k]
    ensures Find(s, c) == Some(k)
  {
    if k > 0 {
      assert s[0] == s[..k][0];
      assert s[1..][..k - 1] == s[..k][1..];
      FindIs(s[1..], c, k - 1);
    }
  }

  /**
   * The pattern at the head of `[text](target)...`, for a link text without
   * ']' and a target without ')', matches exactly when the target is a
   * markdown target, and then captures that text and that target.
   */
  lemma MatchLinkAt(text: string, target: string, rest: string)
    requires text != "" && ']' !in text && ')' !in target
    ensures MatchLink(Original(Link(text, target)) + rest) ==
      if IsMdTarget(target) then Some(Link(text, target)) else None
  {
    var s := Original(Link(text, target)) + rest;
    var j, k := |text|, |target|;
    assert s != [] && s[0] == '[' && Find(s[1..], ']') == Some(j) && j + 2 < |s| && s[j + 2] == '(' by {
      CloseBracketAt(text, target, rest);
    }
    assert j + 3 + k <= |s| && Find(s[j + 3..], ')') == Some(k) by {
      CloseParenAt(text, target, rest);
    }
    MatchLinkUnfold(s, j, k);
    assert s[1..j + 1] == text && s[j + 3..j + 3 + k] == target by {
      CloseBracketAt(text, target, rest);
      CloseParenAt(text, target, rest);
    }
  }

  /** The link text of `[text](target)...` ends at the first ']', which is followed by '('. */
  lemma CloseBracketAt(text: string, target: string, rest: string)
    requires ']' !in text
    ensures var s := Original(Link(text, target)) + rest;
      && s != [] && s[0] == '[' && Find(s[1..], ']') == Some(|text|)
      && |text| + 2 < |s| && s[|text| + 2] == '(' && s[1..|text| + 1] == text
  {
    var s := Original(Link(text, target)) + rest;
    var j := |text|;
    assert s[1..] == text + "](" + target + ")" + rest;
    assert s[1..][..j] == text;
    FindIs(s[1..], ']', j);
  }

  /** The target of `[text](target)...` ends at the first ')'. */
  lemma CloseParenAt(text: string, target: string, rest: string)
    requires ')' !in target
    ensures var s := Original(Link(text, target)) + rest;
      var j := |text|;
      && j + 3 <= |s| && Find(s[j + 3..], ')') == Some(|target|)
      && j + 3 + |target| <= |s| && s[j + 3..j + 3 + |target|] == target
  {
    var s := Original(Link(text, target)) + rest;
    var j := |text|;
    assert s[j + 3..] == target + ")" + rest;
    assert s[j + 3..][..|target|] == target;
    FindIs(s[j + 3..], ')', |target|);
  }

  /** `MatchLink` once both brackets have been found. */
  lemma MatchLinkUnfold(s: string, j: nat, k: nat)
    requires s != [] && s[0] == '[' && Find(s[1..], ']') == Some(j)
    requires j != 0 && j + 2 < |s| && s[j + 2] == '('
    requires Find(s[j + 3..], ')') == Some(k)
    ensures MatchLink(s) ==
      if IsMdTarget(s[j + 3..j + 3 + k]) then Some(Link(s[1..j + 1], s[j + 3..j + 3 + k])) else None
  {
  }

  /** The tokens cover the body exactly: reading them back gives the body. */
  lemma {:induction false} TokenizeCovers(s: string)
    ensures Source(Tokenize(s)) == s
    decreases |s|
  {
    if s != [] {
      match MatchLink(s)
      case Some(l) =>
        var n := |Original(l)|;
        TokenizeCovers(s[n..]);
        SourceCons(LinkToken(l), Tokenize(s[n..]));
        assert s == s[..n] + s[n..];
      case None =>
        TokenizeCovers(s[1..]);
        SourceCons(Plain(s[0]), Tokenize(s[1..]));
        assert s == [s[0]] + s[1..];
    }
  }

  lemma SourceCons(t: Token, ts: seq<Token>)
    ensures Source([t] + ts) == (match t case Plain(c) => [c] case LinkToken(l) => Original(l)) + Source(ts)
  {
    assert ([t] + ts)[0] == t && ([t] + ts)[1..] == ts;
  }

  /** The rewriter emits, token by token, each character as it is and each link rewritten. */
  lemma {:induction false} RewriteIsRender(s: string)
    ensures RewriteLinks(s) == Render(Tokenize(s))
    decreases |s|
  {
    if s != [] {
      match MatchLink(s)
      case Some(l) =>
        RewriteIsRender(s[|Original(l)|..]);
      case None =>
        RewriteIsRender(s[1..]);
    }
  }

  /** A link is left as it is when its file name carries no prefix. */
  predicate KeepsLink(l: Link) {
    !IsPrefixed(FileName(SplitAnchor(l.target).0))
  }

  lemma {:induction false} RenderKeeps(ts: seq<Token>)
    requires forall i :: 0 <= i < |ts| && ts[i].LinkToken? ==> KeepsLink(ts[i].link)
    ensures Render(ts) == Source(ts)
  {
    if ts != [] {
      RenderKeeps(ts[1..]);
    }
  }

  /**
   * Text outside links is copied byte for byte: when no matched link has a
   * prefixed file name, the body comes back unchanged.
   */
  lemma UnprefixedLinksUnchanged(s: string)
    requires forall i :: 0 <= i < |Tokenize(s)| && Tokenize(s)[i].LinkToken? ==> KeepsLink(Tokenize(s)[i].link)
    ensures RewriteLinks(s) == s
  {
    RewriteIsRender(s);
    RenderKeeps(Tokenize(s));
    TokenizeCovers(s);
  }

  /** No link starts at a character other than '['. */
  lemma NoMatchWithoutBracket(s: string)
    requires s != [] && s[0] != '['
    ensures MatchLink(s) == None
  {
  }

  /** Where no link matches, one character is copied and the scan moves on. */
  lemma RewritePlainHead(s: string)
    requires s != [] && MatchLink(s).None?
    ensures RewriteLinks(s) == [s[0]] + RewriteLinks(s[1..])
  {
  }

  /** A stretch of text without '[' holds no link and is copied as it is. */
  lemma {:induction false} RewriteNoBracket(a: string, rest: string)
    requires '[' !in a
    ensures RewriteLinks(a + rest) == a + RewriteLinks(rest)
  {
    if a != [] {
      var c, a' := a[0], a[1..];
      assert a + rest == [c] + (a' + rest) && a == [c] + a';
      assert c in a;
      PlainChar(c, a' + rest);
      RewriteNoBracket(a', rest);
      Regroup([c], a', RewriteLinks(rest));
    } else {
      assert a + rest == rest;
    }
  }

  /** A character other than '[' is copied and the scan moves on. */
  lemma PlainChar(c: char, tail: string)
    requires c != '['
    ensures RewriteLinks([c] + tail) == [c] + RewriteLinks(tail)
  {
    var s := [c] + tail;
    NoMatchWithoutBracket(s);
    RewritePlainHead(s);
    assert s[1..] == tail;
  }

  /** A matched link is replaced by its rewriting and the scan resumes after its ')'. */
  lemma RewriteLinkHead(l: Link, rest: string)
    requires IsLink(l)
    ensures RewriteLinks(Original(l) + rest) == Rewritten(l) + RewriteLinks(rest)
  {
    MatchLinkAt(l.text, l.target, rest);
    var s := Original(l) + rest;
    assert s[|Original(l)|..] == rest;
  }

  /**
   * A bracketed text whose target is not a markdown file (an external URL,
   * an image, an anchor alone) is not a match: only its '[' is copied, and
   * the scan goes on from the next character.
   */
  lemma NonMarkdownTargetSkipped(text: string, target: string, rest: string)
    requires text != "" && ']' !in text && ')' !in target && !IsMdTarget(target)
    ensures RewriteLinks(Original(Link(text, target)) + rest) ==
      "[" + RewriteLinks(text + "](" + target + ")" + rest)
  {
    var b := text + "](" + target + ")";
    OriginalHead(text, target);
    Regroup("[", b, rest);
    MatchLinkAt(text, target, rest);
    UnmatchedBracket(b + rest);
  }

  /** A '[' that starts no link is copied alone. */
  lemma UnmatchedBracket(tail: string)
    requires MatchLink("[" + tail).None?
    ensures RewriteLinks("[" + tail) == "[" + RewriteLinks(tail)
  {
    var s := "[" + tail;
    RewritePlainHead(s);
    assert s[0] == '[' && s[1..] == tail;
  }

  /** `split("#", 1)` takes the anchor from the first '#'. */
  lemma SplitAnchorOf(pathPart: string, anchor: string)
    requires '#' !in pathPart && (anchor == [] || anchor[0] == '#')
    ensures SplitAnchor(pathPart + anchor) == (pathPart, anchor)
  {
    var t := pathPart + anchor;
    if anchor == [] {
      assert t == pathPart;
    } else {
      assert t[..|pathPart|] == pathPart;
      FindIs(t, '#', |pathPart|);
      assert t[|pathPart|..] == anchor;
    }
  }

  /**
   * The callback keeps the link text and the anchor verbatim and changes
   * only the path part, and only when its file name is prefixed.
   */
  lemma RewrittenKeepsTextAndAnchor(text: string, pathPart: string, anchor: string)
    requires '#' !in pathPart && (anchor == [] || anchor[0] == '#')
    ensures Rewritten(Link(text, pathPart + anchor)) ==
      "[" + text + "](" + ((if IsPrefixed(FileName(pathPart)) then NewPath(pathPart) else pathPart) + anchor) + ")"
  {
    SplitAnchorOf(pathPart, anchor);
  }

  /** A link to `dir/NNN--name.md#anchor` becomes a link to `dir/name.md#anchor`. */
  lemma LinkUnderDirectory(text: string, dir: string, file: string, anchor: string)
    requires IsCleanPath(dir) && Kept(file) && '/' !in file && '#' !in dir + "/" + file
    requires IsPrefixed(file) && Kept(StripPrefix(file))
    requires anchor == [] || anchor[0] == '#'
    ensures Rewritten(Link(text, dir + "/" + file + anchor)) ==
      "[" + text + "](" + (dir + "/" + StripPrefix(file) + anchor) + ")"
  {
    var pathPart := dir + "/" + file;
    RewrittenKeepsTextAndAnchor(text, pathPart, anchor);
    NewPathKeepsParent(dir, file);
    assert IsPrefixed(FileName(pathPart));
    var np := NewPath(pathPart);
    assert np == dir + "/" + StripPrefix(file);
  }

  /** A target without the letter 'd' cannot hold ".md". */
  lemma NoDNoMd(t: string)
    requires 'd' !in t
    ensures !IsMdTarget(t)
  {
    forall p: nat | p < |t| ensures !MdAt(t, p) {
      if p + 3 <= |t| {
        assert t[p..p + 3][2] == t[p + 2];
        assert t[p + 2] in t;
      }
    }
  }

  /**
   * A link to a top-level `NNN--name.md`, with or without an anchor, loses
   * the prefix of its target; the text and the anchor stay, and the scan
   * resumes after the link.
   */
  lemma TopLevelLinkRewrite(text: string, p: string, name: string, anchor: string, rest: string)
    requires text != "" && ']' !in text
    requires IsOrderingPrefix(p) && Kept(name) && '/' !in name && '#' !in name && ')' !in name
    requires (anchor == [] || anchor[0] == '#') && ')' !in anchor
    requires IsMdTarget(p + name + anchor)
    ensures RewriteLinks("[" + text + "](" + (p + name + anchor) + ")" + rest)
      == "[" + text + "](" + (name + anchor) + ")" + RewriteLinks(rest)
  {
    TopLevelRewritten(text, p, name, anchor);
    var l := Link(text, p + name + anchor);
    assert IsLink(l);
    RewriteLinkHead(l, rest);
  }

  lemma TopLevelRewritten(text: string, p: string, name: string, anchor: string)
    requires IsOrderingPrefix(p) && Kept(name) && '/' !in name && '#' !in name && ')' !in name
    requires anchor == [] || anchor[0] == '#'
    ensures ')' !in p + name
    ensures Rewritten(Link(text, p + name + anchor)) == "[" + text + "](" + (name + anchor) + ")"
  {
    var pathPart := p + name;
    assert '#' !in pathPart && ')' !in pathPart by {
      OrderingPrefixChars(p);
    }
    assert IsPrefixed(FileName(pathPart)) && NewPath(pathPart) == name by {
      TopLevelPrefixed(p, name);
      NewPathTopLevelExample(p, name);
    }
    RewrittenPrefixed(text, pathPart, anchor, name);
  }

  lemma RewrittenPrefixed(text: string, pathPart: string, anchor: string, newPath: string)
    requires '#' !in pathPart && (anchor == [] || anchor[0] == '#')
    requires IsPrefixed(FileName(pathPart)) && NewPath(pathPart) == newPath
    ensures Rewritten(Link(text, pathPart + anchor)) == "[" + text + "](" + (newPath + anchor) + ")"
  {
    RewrittenKeepsTextAndAnchor(text, pathPart, anchor);
  }

  lemma OrderingPrefixChars(p: string)
    requires IsOrderingPrefix(p)
    ensures '#' !in p && ')' !in p && '/' !in p
  {
    forall i | 0 <= i < |p| ensures p[i] != '#' && p[i] != ')' && p[i] != '/' {
      if i < |p| - 2 {
        assert p[..|p| - 2][i] == p[i];
      }
    }
  }

  /**
   * A link to `dir/NNN--name.md`, with or without an anchor, loses the
   * prefix of its file name; the directory, the text and the anchor stay,
   * and the scan resumes after the link.
   */
  lemma DirLinkRewrite(text: string, dir: string, p: string, name: string, anchor: string, rest: string)
    requires text != "" && ']' !in text
    requires Kept(dir) && '/' !in dir && '#' !in dir && ')' !in dir
    requires IsOrderingPrefix(p) && Kept(name) && '/' !in name && '#' !in name && ')' !in name
    requires (anchor == [] || anchor[0] == '#') && ')' !in anchor
    requires IsMdTarget(dir + "/" + (p + name) + anchor)
    ensures RewriteLinks("[" + text + "](" + (dir + "/" + (p + name) + anchor) + ")" + rest)
      == "[" + text + "](" + (dir + "/" + name + anchor) + ")" + RewriteLinks(rest)
  {
    DirRewritten(text, dir, p, name, anchor);
    var l := Link(text, dir + "/" + (p + name) + anchor);
    assert IsLink(l);
    RewriteLinkHead(l, rest);
  }

  lemma DirRewritten(text: string, dir: string, p: string, name: string, anchor: string)
    requires Kept(dir) && '/' !in dir && '#' !in dir && ')' !in dir
    requires IsOrderingPrefix(p) && Kept(name) && '/' !in name && '#' !in name && ')' !in name
    requires anchor == [] || anchor[0] == '#'
    ensures ')' !in dir + "/" + (p + name)
    ensures Rewritten(Link(text, dir + "/" + (p + name) + anchor)) == "[" + text + "](" + (dir + "/" + name + anchor) + ")"
  {
    var pathPart := dir + "/" + (p + name);
    assert '#' !in pathPart && ')' !in pathPart by {
      OrderingPrefixChars(p);
    }
    assert IsPrefixed(FileName(pathPart)) && NewPath(pathPart) == dir + "/" + name by {
      StripRemovesExactlyThePrefix(p, name);
      OrderingPrefixChars(p);
      assert p[0] in p;
      SplitNoSlash(dir);
      NewPathKeepsParent(dir, p + name);
    }
    RewrittenPrefixed(text, pathPart, anchor, dir + "/" + name);
  }

  /**
   * A link whose target is not a markdown file, with no '[' inside it, is
   * copied as it is and the scan goes on after it.
   */
  lemma ExternalLinkKept(text: string, target: string, rest: string)
    requires text != "" && ']' !in text && '[' !in text
    requires ')' !in target && '[' !in target && !IsMdTarget(target)
    ensures RewriteLinks(Original(Link(text, target)) + rest) == Original(Link(text, target)) + RewriteLinks(rest)
  {
    var tail := text + "](" + target + ")";
    NonMarkdownTargetSkipped(text, target, rest);
    NoBracketTail(text, target, rest);
    Regroup("[", tail, RewriteLinks(rest));
    OriginalHead(text, target);
  }

  lemma OriginalHead(text: string, target: string)
    ensures Original(Link(text, target)) == "[" + (text + "](" + target + ")")
  {
  }

  lemma NoBracketTail(text: string, target: string, rest: string)
    requires '[' !in text && '[' !in target
    ensures RewriteLinks(text + "](" + target + ")" + rest) == text + "](" + target + ")" + RewriteLinks(rest)
  {
    RewriteNoBracket(text + "](" + target + ")", rest);
  }

  lemma Regroup(a: string, b: string, c: string)
    ensures a + (b + c) == a + b + c
  {
  }

  /**
   * The link-scoping example: prefixed markdown links lose the prefix, with
   * or without an anchor, and an external link is left alone.
   */
  lemma LinkScopingExample(body: string)
    requires body == "[A](010--x.md)" + " [B](https://e.com) " + "[C](010--x.md#sec)"
    ensures RewriteLinks(body) == "[A](x.md)" + " [B](https://e.com) " + "[C](x.md#sec)"
  {
    var c := "[C](010--x.md#sec)";
    ExampleLinkA(" [B](https://e.com) " + c);
    ExampleLinkB(c);
    ExampleLinkC();
    Regroup("[A](010--x.md)", " [B](https://e.com) ", c);
    Regroup("[A](x.md)", " [B](https://e.com) ", "[C](x.md#sec)");
  }

  lemma ExampleLinkA(rest: string)
    ensures RewriteLinks("[A](010--x.md)" + rest) == "[A](x.md)" + RewriteLinks(rest)
  {
    assert MdAt("010--x.md", 6);
    assert IsOrderingPrefix("010--");
    assert "010--x.md" == "010--" + "x.md" + "";
    TopLevelLinkRewrite("A", "010--", "x.md", "", rest);
    SpelledA();
  }

  lemma SpelledA()
    ensures "[" + "A" + "](" + ("010--" + "x.md" + "") + ")" == "[A](010--x.md)"
    ensures "[" + "A" + "](" + ("x.md" + "") + ")" == "[A](x.md)"
  {
  }

  lemma ExampleLinkB(rest: string)
    ensures RewriteLinks(" [B](https://e.com) " + rest) == " [B](https://e.com) " + RewriteLinks(rest)
  {
    var e := Link("B", "https://e.com");
    assert 'd' !in e.target && '[' !in e.target && ')' !in e.target;
    NoDNoMd(e.target);
    SpelledB(rest);
    SpelledB(RewriteLinks(rest));
    RewriteNoBracket(" ", Original(e) + (" " + rest));
    ExternalLinkKept("B", "https://e.com", " " + rest);
    RewriteNoBracket(" ", rest);
  }

  lemma SpelledB(r: string)
    ensures " [B](https://e.com) " + r == " " + (Original(Link("B", "https://e.com")) + (" " + r))
  {
  }

  lemma ExampleLinkC()
    ensures RewriteLinks("[C](010--x.md#sec)") == "[C](x.md#sec)"
  {
    assert MdAt("010--x.md#sec", 6);
    assert IsOrderingPrefix("010--");
    assert "010--x.md#sec" == "010--" + "x.md" + "#sec";
    TopLevelLinkRewrite("C", "010--", "x.md", "#sec", "");
    assert RewriteLinks("") == "";
    SpelledC();
  }

  lemma SpelledC()
    ensures "[" + "C" + "](" + ("010--" + "x.md" + "#sec") + ")" + "" == "[C](010--x.md#sec)"
    ensures "[" + "C" + "](" + ("x.md" + "#sec") + ")" + "" == "[C](x.md#sec)"
  {
  }

  lemma TopLevelPrefixed(p: string, rest: string)
    requires IsOrderingPrefix(p) && Kept(rest) && '/' !in rest
    ensures IsPrefixed(FileName(p + rest))
  {
    StripRemovesExactlyThePrefix(p, rest);
    assert p[0] in p;
    NewPathTopLevel(p + rest);
  }

  /** A link into a sub-directory, inside running text. */
  lemma SubdirectoryLinkExample()
    ensures RewriteLinks("See " + "[Guide](guides/010--quickstart.md)" + " for details.")
      == "See " + "[Guide](guides/quickstart.md)" + " for details."
  {
    GuideTarget();
    SpelledGuide();
    var l, d := "[Guide](guides/010--quickstart.md)", " for details.";
    RewriteNoBracket("See ", l + d);
    DirLinkRewrite("Guide", "guides", "010--", "quickstart.md", "", d);
    RewriteNoBracket(d, "");
    EmptyTail(d);
    Regroup("See ", l, d);
    Regroup("See ", "[Guide](guides/quickstart.md)", d);
  }

  lemma GuideTarget()
    ensures IsOrderingPrefix("010--")
    ensures Kept("guides") && '/' !in "guides" && '#' !in "guides" && ')' !in "guides"
    ensures Kept("quickstart.md") && '/' !in "quickstart.md" && '#' !in "quickstart.md" && ')' !in "quickstart.md"
    ensures '[' !in "See " && '[' !in " for details." && ']' !in "Guide"
    ensures IsMdTarget("guides" + "/" + ("010--" + "quickstart.md") + "")
  {
    GuideIsMd();
  }

  lemma GuideIsMd()
    ensures IsMdTarget("guides" + "/" + ("010--" + "quickstart.md") + "")
  {
    var t := "guides/010--quickstart.md";
    assert t[22..25] == ".md";
    assert MdAt(t, 22);
    assert t == "guides" + "/" + ("010--" + "quickstart.md") + "";
  }

  lemma EmptyTail(s: string)
    ensures RewriteLinks(s + "") == RewriteLinks(s) && s + RewriteLinks("") == s
  {
    assert s + "" == s;
  }

  lemma SpelledGuide()
    ensures "[" + "Guide" + "](" + ("guides" + "/" + ("010--" + "quickstart.md") + "") + ")" == "[Guide](guides/010--quickstart.md)"
    ensures "[" + "Guide" + "](" + ("guides" + "/" + "quickstart.md" + "") + ")" == "[Guide](guides/quickstart.md)"
  {
    SpelledOldGuide();
    SpelledNewGuide();
  }

  lemma SpelledOldGuide()
    ensures "[" + "Guide" + "](" + ("guides" + "/" + ("010--" + "quickstart.md") + "") + ")" == "[Guide](guides/010--quickstart.md)"
  {
    assert "guides" + "/" + ("010--" + "quickstart.md") + "" == "guides/010--quickstart.md";
  }

  lemma SpelledNewGuide()
    ensures "[" + "Guide" + "](" + ("guides" + "/" + "quickstart.md" + "") + ")" == "[Guide](guides/quickstart.md)"
  {
    assert "guides" + "/" + "quickstart.md" + "" == "guides/quickstart.md";
  }

  /**
   * The callback does not tell a URL from a relative path: an absolute link
   * to a prefixed markdown file loses the prefix, and the "//" after the
   * scheme collapses to one '/'.
   */
  lemma UrlLinkRewritten()
    ensures Rewritten(Link("x", "https://e.com/010--a.md")) == "[x](https:/e.com/a.md)"
  {
    UrlLinkParts();
    SpelledUrlLink();
  }

  lemma UrlLinkParts()
    ensures Rewritten(Link("x", "https://e.com/010--a.md")) == "[" + "x" + "](" + "https:/e.com/a.md" + ")"
  {
    NewPathUrlExample();
    UrlNamePrefixed();
    UrlHasNoAnchor();
    RewrittenWithoutAnchor("x", "https://e.com/010--a.md");
  }

  lemma UrlHasNoAnchor()
    ensures '#' !in "https://e.com/010--a.md"
  {
  }

  /** A prefixed link without an anchor becomes the bracketed text and the new path. */
  lemma RewrittenWithoutAnchor(text: string, pathPart: string)
    requires '#' !in pathPart && IsPrefixed(FileName(pathPart))
    ensures Rewritten(Link(text, pathPart)) == "[" + text + "](" + NewPath(pathPart) + ")"
  {
    assert pathPart + "" == pathPart;
    RewrittenPrefixed(text, pathPart, "", NewPath(pathPart));
    assert NewPath(pathPart) + "" == NewPath(pathPart);
  }

  lemma SpelledUrlLink()
    ensures "[" + "x" + "](" + "https:/e.com/a.md" + ")" == "[x](https:/e.com/a.md)"
  {
  }

  lemma UrlNamePrefixed()
    ensures IsPrefixed("010--a.md")
  {
    assert IsOrderingPrefix("010--") && "010--a.md" == "010--" + "a.md";
    StripRemovesExactlyThePrefix("010--", "a.md");
  }
}
