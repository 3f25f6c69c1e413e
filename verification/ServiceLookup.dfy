/**
 sun.misc.Service: provider-configuration files and the lazy iterator over provider names, proved to
 deliver the eager answer, with duplicates ignored, for every order of hasNext and next calls.
 */
module ServiceLookup {
  import opened Wrappers
  import opened JoinedParts

  // Character.isJavaIdentifierStart and isJavaIdentifierPart, and which classes can be instantiated.
  datatype World = World(isStart: char -> bool, isPart: char -> bool, canInstantiate: string -> bool)

  // A configuration file is a sequence of lines.
  type Config = seq<string>

  // ---------------------------------------------------------------- one line

  // The characters before the first '#'.
  function StripComment(ln: string): (r: string)
    ensures '#' !in r
    ensures r == ln || (|r| < |ln| && ln[..|r|] == r && ln[|r|] == '#')
  {
    if ln == "" || ln[0] == '#' then "" else [ln[0]] + StripComment(ln[1..])
  }

  // String.trim: drops characters up to ' ' at both ends.
  function TrimLeft(s: string): (r: string)
    ensures r == "" || r[0] > ' '
    ensures |r| <= |s| && r == s[|s| - |r|..]
    ensures forall i :: 0 <= i < |s| - |r| ==> s[i] <= ' '
  {
    if s == "" || s[0] > ' ' then s else TrimLeft(s[1..])
  }

  function TrimRight(s: string): (r: string)
    ensures r == "" || r[|r| - 1] > ' '
    ensures r <= s
    ensures forall i :: |r| <= i < |s| ==> s[i] <= ' '
  {
    if s == "" || s[|s| - 1] > ' ' then s else TrimRight(s[..|s| - 1])
  }

  function Trim(s: string): string {
    TrimRight(TrimLeft(s))
  }

  datatype Entry = Blank | Named(name: string) | Illegal

  predicate LegalName(w: World, s: string) {
    s != "" && w.isStart(s[0]) && forall i :: 1 <= i < |s| ==> w.isPart(s[i]) || s[i] == '.'
  }

  // What a line says.
  function EntryOf(w: World, ln: string): Entry {
    var s := Trim(StripComment(ln));
    if s == "" then Blank
    else if ' ' in s || '\t' in s || !LegalName(w, s) then Illegal
    else Named(s)
  }

  // A provider class: an identifier start, then identifier parts joined by '.'.
  ghost predicate IsProviderName(w: World, name: string) {
    name != "" && w.isStart(name[0]) && IsJoin(name[1..], '.', w.isPart)
  }

  // It stands alone on a line: trimming leaves it as it is, and it is not taken for two words or a comment.
  predicate StandsAlone(name: string) {
    && name != "" && name[0] > ' ' && name[|name| - 1] > ' '
    && ' ' !in name && '\t' !in name && '#' !in name
  }

  predicate AllBlank(s: string) {
    forall i :: 0 <= i < |s| ==> s[i] <= ' '
  }

  predicate OptionalComment(s: string) {
    s == "" || s[0] == '#'
  }

  ghost predicate IsLineOf(ln: string, text: string) {
    exists pre, post, comment :: AllBlank(pre) && AllBlank(post) && OptionalComment(comment) && ln == pre + text + post + comment
  }

  // The text of a line is unique: what is left without the comment and the blanks around it.
  lemma TrimmedText(pre: string, text: string, post: string, comment: string)
    requires AllBlank(pre) && AllBlank(post) && OptionalComment(comment)
    requires '#' !in text && (text == "" || (text[0] > ' ' && text[|text| - 1] > ' '))
    ensures Trim(StripComment(pre + text + post + comment)) == text
  {
    hide *;
    TrimmedBody(pre, text, post);
    NoComment(pre, text, post);
    StripOf(pre + text + post, comment);
  }

  lemma NoComment(pre: string, text: string, post: string)
    requires AllBlank(pre) && AllBlank(post) && '#' !in text
    ensures '#' !in pre + text + post
  {
  }

  lemma TrimmedBody(pre: string, text: string, post: string)
    requires AllBlank(pre) && AllBlank(post) && (text == "" || (text[0] > ' ' && text[|text| - 1] > ' '))
    ensures Trim(pre + text + post) == text
  {
    hide *;
    if text == "" {
      BlanksTogether(pre, post);
      BlankTrimmed(pre + post);
      assert pre + text == pre;
    } else {
      VisibleTrimmed(pre, text, post);
      Regrouped(pre, text, post);
    }
  }

  lemma Regrouped(pre: string, text: string, post: string)
    ensures pre + text + post == pre + (text + post)
  {
  }

  lemma VisibleTrimmed(pre: string, text: string, post: string)
    requires AllBlank(pre) && AllBlank(post) && text != "" && text[0] > ' ' && text[|text| - 1] > ' '
    ensures Trim(pre + (text + post)) == text
  {
    hide AllBlank, TrimLeft, TrimRight;
    LeftTrimmed(pre, text + post);
    RightTrimmed(text, post);
  }

  lemma BlanksTogether(pre: string, post: string)
    requires AllBlank(pre) && AllBlank(post)
    ensures AllBlank(pre + post)
  {
  }

  lemma {:induction false} StripOf(body: string, comment: string)
    requires '#' !in body && OptionalComment(comment)
    ensures StripComment(body + comment) == body
  {
    if body != "" {
      assert body[0] in body && (body + comment)[1..] == body[1..] + comment;
      StripOf(body[1..], comment);
    }
  }

  lemma {:induction false} LeftTrimmed(pre: string, rest: string)
    requires AllBlank(pre) && rest != "" && rest[0] > ' '
    ensures TrimLeft(pre + rest) == rest
  {
    if pre == "" {
      assert pre + rest == rest;
    } else {
      assert (pre + rest)[1..] == pre[1..] + rest;
      LeftTrimmed(pre[1..], rest);
    }
  }

  lemma {:induction false} RightTrimmed(text: string, post: string)
    requires AllBlank(post) && text != "" && text[|text| - 1] > ' '
    ensures TrimRight(text + post) == text
  {
    if post == "" {
      assert text + post == text;
    } else {
      var front := post[..|post| - 1];
      assert (text + post)[..|text + post| - 1] == text + front;
      RightTrimmed(text, front);
    }
  }

  lemma {:induction false} BlankTrimmed(s: string)
    requires AllBlank(s)
    ensures Trim(s) == ""
  {
    if s != "" {
      BlankTrimmed(s[1..]);
    }
  }

  lemma LineText(ln: string) returns (text: string)
    ensures text == Trim(StripComment(ln)) && IsLineOf(ln, text)
    ensures '#' !in text && (text == "" || (text[0] > ' ' && text[|text| - 1] > ' '))
  {
    var body, comment := CommentOff(ln);
    var pre, left := LeftBlanksOff(body);
    var post;
    text, post := RightBlanksOff(left);
    hide StripComment, TrimLeft, TrimRight, AllBlank, IsLineOf;
    Inside(pre, text, post);
    LineParts(ln, pre, text, post, comment);
  }

  lemma Inside(pre: string, text: string, post: string)
    requires '#' !in pre + (text + post)
    ensures '#' !in text
  {
    assert forall c :: c in text ==> c in text + post;
  }

  lemma CommentOff(ln: string) returns (body: string, comment: string)
    ensures body == StripComment(ln) && ln == body + comment && OptionalComment(comment) && '#' !in body
  {
    body := StripComment(ln);
    comment := ln[|body|..];
    hide StripComment;
  }

  lemma LeftBlanksOff(body: string) returns (pre: string, left: string)
    ensures left == TrimLeft(body) && body == pre + left && AllBlank(pre) && (left == "" || left[0] > ' ')
  {
    left := TrimLeft(body);
    hide TrimLeft;
    pre := body[..|body| - |left|];
    assert forall i :: 0 <= i < |pre| ==> pre[i] == body[i];
  }

  lemma RightBlanksOff(left: string) returns (text: string, post: string)
    ensures text == TrimRight(left) && left == text + post && AllBlank(post) && (text == "" || text[|text| - 1] > ' ')
    ensures text != "" ==> text[0] == left[0]
  {
    text := TrimRight(left);
    post := left[|text|..];
    hide TrimRight;
  }

  lemma LineParts(ln: string, pre: string, text: string, post: string, comment: string)
    requires AllBlank(pre) && AllBlank(post) && OptionalComment(comment)
    requires ln == pre + (text + post) + comment
    ensures IsLineOf(ln, text)
  {
    assert ln == pre + text + post + comment;
  }

  // Every line has one text, and the text decides what the line says.
  lemma TextDecides(w: World, ln: string, text: string)
    requires IsLineOf(ln, text) && '#' !in text && (text == "" || (text[0] > ' ' && text[|text| - 1] > ' '))
    ensures EntryOf(w, ln) == if text == "" then Blank
                              else if StandsAlone(text) && IsProviderName(w, text) then Named(text)
                              else Illegal
  {
    hide Trim, StripComment, IsJoin;
    var pre, post, comment :| AllBlank(pre) && AllBlank(post) && OptionalComment(comment) && ln == pre + text + post + comment;
    TrimmedText(pre, text, post, comment);
    if text != "" {
      IsJoinExactly(text[1..], '.', w.isPart);
      assert forall i :: 1 <= i < |text| ==> text[1..][i - 1] == text[i];
    }
  }

  // A line names a class exactly if it holds that name, with blanks around it and a comment behind it at most.
  lemma LineNamesExactly(w: World, ln: string, name: string)
    ensures EntryOf(w, ln) == Named(name) <==> IsLineOf(ln, name) && StandsAlone(name) && IsProviderName(w, name)
  {
    hide EntryOf, IsLineOf, IsProviderName;
    var text := LineText(ln);
    TextDecides(w, ln, text);
    if IsLineOf(ln, name) && StandsAlone(name) && IsProviderName(w, name) {
      TextDecides(w, ln, name);
    }
  }

  // It says nothing exactly if it holds blanks and a comment at most.
  lemma BlankLineExactly(w: World, ln: string)
    ensures EntryOf(w, ln) == Blank <==> IsLineOf(ln, "")
  {
    hide EntryOf, IsLineOf, IsProviderName;
    var text := LineText(ln);
    TextDecides(w, ln, text);
    if IsLineOf(ln, "") {
      TextDecides(w, ln, "");
    }
  }

  // Every other line is illegal.
  lemma IllegalLineExactly(w: World, ln: string)
    ensures EntryOf(w, ln) == Illegal <==>
            !IsLineOf(ln, "") && forall name :: IsLineOf(ln, name) && StandsAlone(name) ==> !IsProviderName(w, name)
  {
    hide EntryOf, IsLineOf, IsProviderName;
    BlankLineExactly(w, ln);
    var text := LineText(ln);
    TextDecides(w, ln, text);
    forall name | IsLineOf(ln, name) && StandsAlone(name)
      ensures EntryOf(w, ln) == Named(name) <==> IsProviderName(w, name)
    {
      LineNamesExactly(w, ln, name);
    }
  }

  // One part of a qualified name, of visible characters.
  predicate IsIdentifier(w: World, part: string) {
    && part != "" && w.isStart(part[0])
    && (forall i :: 1 <= i < |part| ==> w.isPart(part[i]))
    && (forall c | c in part :: c > ' ' && c != '#')
  }

  // Qualified names are read, whatever blanks and comment are around them.
  lemma QualifiedNameIsRead(w: World, parts: seq<string>, pre: string, post: string, comment: string)
    requires forall c :: w.isStart(c) ==> w.isPart(c)
    requires parts != [] && forall p | p in parts :: IsIdentifier(w, p)
    requires AllBlank(pre) && AllBlank(post) && OptionalComment(comment)
    ensures EntryOf(w, pre + Joined(parts, '.') + post + comment) == Named(Joined(parts, '.'))
  {
    var name := Joined(parts, '.');
    assert parts[0] in parts;
    IdentifiersAreVisible(w, parts);
    JoinedElements(parts, '.', VisiblePart(w));
    JoinedStart(parts, '.');
    hide EntryOf, Joined, IsLineOf;
    VisibleNameStandsAlone(w, name);
    assert pre + name + post + comment == pre + (name + post) + comment;
    LineParts(pre + name + post + comment, pre, name, post, comment);
    LineNamesExactly(w, pre + name + post + comment, name);
  }

  function VisiblePart(w: World): char -> bool {
    c => w.isPart(c) && c > ' ' && c != '#'
  }

  lemma IdentifiersAreVisible(w: World, parts: seq<string>)
    requires forall c :: w.isStart(c) ==> w.isPart(c)
    requires parts != [] && forall p | p in parts :: IsIdentifier(w, p)
    ensures MadeOf(parts, VisiblePart(w))
  {
    forall p, c | p in parts && c in p
      ensures VisiblePart(w)(c)
    {
      var i :| 0 <= i < |p| && p[i] == c;
      assert IsIdentifier(w, p);
    }
  }

  lemma VisibleNameStandsAlone(w: World, name: string)
    requires name != "" && w.isStart(name[0])
    requires forall c | c in name :: VisiblePart(w)(c) || c == '.'
    ensures StandsAlone(name) && IsProviderName(w, name)
  {
    hide IsJoin;
    assert name[0] in name && name[|name| - 1] in name;
    var rest := name[1..];
    forall i | 0 <= i < |rest|
      ensures w.isPart(rest[i]) || rest[i] == '.'
    {
      assert rest[i] in name;
    }
    IsJoinExactly(rest, '.', w.isPart);
  }

  // ---------------------------------------------------------------- one file

  // The names a file lists up to its first illegal line.
  function NamesUpToError(w: World, config: Config): seq<string> {
    if config == [] then []
    else
      match EntryOf(w, config[0])
      case Blank => NamesUpToError(w, config[1..])
      case Illegal => []
      case Named(name) => [name] + NamesUpToError(w, config[1..])
  }

  // A well-formed beginning contributes all its names; an illegal line ends the reading.
  lemma {:induction false} NamesOfFile(w: World, config: Config, rest: Config)
    ensures WellFormed(w, config) ==> NamesUpToError(w, config + rest) == NamesUpToError(w, config) + NamesUpToError(w, rest)
    ensures !WellFormed(w, config) ==> NamesUpToError(w, config + rest) == NamesUpToError(w, config)
  {
    hide EntryOf;
    if config == [] {
      assert config + rest == rest;
    } else {
      assert (config + rest)[1..] == config[1..] + rest;
      NamesOfFile(w, config[1..], rest);
    }
  }

  lemma NamesOfLine(w: World, ln: string, name: string)
    ensures NamesUpToError(w, [ln]) == [name] <==> IsLineOf(ln, name) && StandsAlone(name) && IsProviderName(w, name)
    ensures |NamesUpToError(w, [ln])| <= 1
    ensures WellFormed(w, [ln]) <==> IsLineOf(ln, "") || NamesUpToError(w, [ln]) != []
  {
    LineNamesExactly(w, ln, name);
    BlankLineExactly(w, ln);
    hide EntryOf, IsLineOf, IsProviderName, StandsAlone;
    assert [ln][0..] == [ln];
    ReadLine(w, [ln], 0);
    ReadLine(w, [ln], 1);
    hide NamesUpToError;
    assert [name] + [] == [name] && EntryOf(w, ln).Named? ==> NamesUpToError(w, [ln]) == [EntryOf(w, ln).name];
  }

  predicate WellFormed(w: World, config: Config) {
    forall k :: 0 <= k < |config| ==> !EntryOf(w, config[k]).Illegal?
  }

  // The names of xs that are neither in `seen` nor repeated, in order.
  function Fresh(xs: seq<string>, seen: set<string>): seq<string> {
    if xs == [] then []
    else if xs[0] in seen then Fresh(xs[1..], seen)
    else [xs[0]] + Fresh(xs[1..], seen + {xs[0]})
  }

  ghost function Elements(xs: seq<string>): set<string> {
    set x | x in xs
  }

  // ---------------------------------------------------------------- all files

  datatype Item = Yield(name: string) | Failure

  function Yields(names: seq<string>): (r: seq<Item>)
    ensures |r| == |names| && forall i :: 0 <= i < |r| ==> r[i] == Yield(names[i])
  {
    if names == [] then [] else [Yield(names[0])] + Yields(names[1..])
  }

  // What is still to come from unread files. A malformed file yields one failure and no name, but the
  // names before its first illegal line count as returned.
  ghost function Outcomes(w: World, configs: seq<Config>, returned: set<string>): seq<Item> {
    if configs == [] then []
    else
      var names := NamesUpToError(w, configs[0]);
      (if WellFormed(w, configs[0]) then Yields(Fresh(names, returned)) else [Failure])
      + Outcomes(w, configs[1..], returned + Elements(names))
  }

  function NamesOf(items: seq<Item>): seq<string> {
    if items == [] then []
    else if items[0].Yield? then [items[0].name] + NamesOf(items[1..])
    else NamesOf(items[1..])
  }

  lemma {:induction false} NamesOfConcat(a: seq<Item>, b: seq<Item>)
    ensures NamesOf(a + b) == NamesOf(a) + NamesOf(b)
  {
    if a == [] {
      assert a + b == b;
    } else {
      assert (a + b)[1..] == a[1..] + b;
      NamesOfConcat(a[1..], b);
    }
  }

  lemma {:induction false} NamesOfYields(names: seq<string>)
    ensures NamesOf(Yields(names)) == names
  {
    if names != [] {
      assert Yields(names)[1..] == Yields(names[1..]);
      NamesOfYields(names[1..]);
    }
  }

  // ---------------------------------------------------------------- the eager specification

  // A listed name and whether its file is well-formed.
  datatype Mention = Mention(name: string, good: bool)

  ghost function MentionsIn(names: seq<string>, good: bool): seq<Mention> {
    seq(|names|, i requires 0 <= i < |names| => Mention(names[i], good))
  }

  // All names listed before an illegal line, file by file.
  ghost function Mentions(w: World, configs: seq<Config>): seq<Mention> {
    if configs == [] then []
    else MentionsIn(NamesUpToError(w, configs[0]), WellFormed(w, configs[0])) + Mentions(w, configs[1..])
  }

  ghost predicate Mentioned(ms: seq<Mention>, name: string) {
    exists m :: m in ms && m.name == name
  }

  // The names whose first mention is in a well-formed file, in the order of those mentions.
  ghost function FirstMentions(ms: seq<Mention>): seq<string> {
    if ms == [] then []
    else
      var front, last := ms[..|ms| - 1], ms[|ms| - 1];
      FirstMentions(front) + if last.good && !Mentioned(front, last.name) then [last.name] else []
  }

  // The names of xs, each at its first occurrence.
  ghost function Deduplicated(xs: seq<string>): seq<string> {
    if xs == [] then []
    else
      var front, last := xs[..|xs| - 1], xs[|xs| - 1];
      Deduplicated(front) + if last in front then [] else [last]
  }

  // All names of all files, in file order.
  ghost function AllNames(w: World, configs: seq<Config>): seq<string> {
    if configs == [] then [] else NamesUpToError(w, configs[0]) + AllNames(w, configs[1..])
  }

  // The same from the front, with the names seen before: links the iterator's order to the specification.
  ghost function FreshMentions(ms: seq<Mention>, seen: set<string>): seq<string> {
    if ms == [] then []
    else
      (if ms[0].good && ms[0].name !in seen then [ms[0].name] else []) + FreshMentions(ms[1..], seen + {ms[0].name})
  }

  lemma {:induction false} FreshMentionsSplit(a: seq<Mention>, b: seq<Mention>, seen: set<string>)
    ensures FreshMentions(a + b, seen) ==
            FreshMentions(a, seen) + FreshMentions(b, seen + (set m | m in a :: m.name))
  {
    hide *;
    FreshMentionsUnfold(a, seen);
    if a == [] {
      assert a + b == b && seen + (set m | m in a :: m.name) == seen;
    } else {
      FreshMentionsUnfold(a + b, seen);
      assert (a + b)[1..] == a[1..] + b;
      FreshMentionsSplit(a[1..], b, seen + {a[0].name});
      assert seen + {a[0].name} + (set m | m in a[1..] :: m.name) == seen + (set m | m in a :: m.name);
    }
  }

  lemma FreshMentionsUnfold(ms: seq<Mention>, seen: set<string>)
    ensures ms == [] ==> FreshMentions(ms, seen) == []
    ensures ms != [] ==>
              FreshMentions(ms, seen) ==
              (if ms[0].good && ms[0].name !in seen then [ms[0].name] else []) + FreshMentions(ms[1..], seen + {ms[0].name})
  {
  }

  lemma {:induction false} FirstMentionsFromFront(ms: seq<Mention>)
    ensures FirstMentions(ms) == FreshMentions(ms, {})
  {
    if ms != [] {
      var front, last := ms[..|ms| - 1], ms[|ms| - 1];
      assert ms == front + [last];
      FirstMentionsFromFront(front);
      FreshMentionsSplit(front, [last], {});
      assert Mentioned(front, last.name) <==> last.name in (set m | m in front :: m.name);
      FreshMentionOfOne(last, {} + (set m | m in front :: m.name));
    }
  }

  lemma FreshMentionOfOne(m: Mention, seen: set<string>)
    ensures FreshMentions([m], seen) == if m.good && m.name !in seen then [m.name] else []
  {
    assert [m][1..] == [];
  }

  lemma {:induction false} FreshMentionsOfFile(names: seq<string>, good: bool, seen: set<string>)
    ensures FreshMentions(MentionsIn(names, good), seen) == if good then Fresh(names, seen) else []
    decreases |names|
  {
    if names != [] {
      assert MentionsIn(names, good)[1..] == MentionsIn(names[1..], good);
      FreshMentionsOfFile(names[1..], good, seen + {names[0]});
      if names[0] in seen {
        assert seen + {names[0]} == seen;
      }
    }
  }

  lemma {:induction false} OutcomesAreFreshMentions(w: World, configs: seq<Config>, returned: set<string>)
    ensures NamesOf(Outcomes(w, configs, returned)) == FreshMentions(Mentions(w, configs), returned)
    decreases |configs|
  {
    if configs != [] {
      var names, good := NamesUpToError(w, configs[0]), WellFormed(w, configs[0]);
      var here := MentionsIn(names, good);
      var first := if good then Yields(Fresh(names, returned)) else [Failure];
      var later := returned + Elements(names);
      OutcomesAreFreshMentions(w, configs[1..], later);
      NamesOfConcat(first, Outcomes(w, configs[1..], later));
      NamesOfYields(Fresh(names, returned));
      assert NamesOf([Failure]) == [];
      FreshMentionsSplit(here, Mentions(w, configs[1..]), returned);
      FreshMentionsOfFile(names, good, returned);
      MentionedNames(names, good);
    }
  }

  lemma MentionedNames(names: seq<string>, good: bool)
    ensures (set m | m in MentionsIn(names, good) :: m.name) == Elements(names)
    ensures forall x :: Mentioned(MentionsIn(names, good), x) <==> x in names
  {
    forall x | x in names
      ensures Mention(x, good) in MentionsIn(names, good)
    {
      var i :| 0 <= i < |names| && names[i] == x;
      assert MentionsIn(names, good)[i] == Mention(x, good);
    }
  }

  // For all files, malformed or not: the names delivered are exactly those whose first mention is in a
  // well-formed file, in that order.
  lemma DeliversFirstMentions(w: World, configs: seq<Config>)
    ensures NamesOf(Outcomes(w, configs, {})) == FirstMentions(Mentions(w, configs))
  {
    OutcomesAreFreshMentions(w, configs, {});
    FirstMentionsFromFront(Mentions(w, configs));
  }

  lemma {:induction false} AllGoodMentions(w: World, configs: seq<Config>)
    requires forall c | c in configs :: WellFormed(w, c)
    ensures Mentions(w, configs) == MentionsIn(AllNames(w, configs), true)
    decreases |configs|
  {
    hide WellFormed, NamesUpToError, MentionsIn;
    if configs == [] {
      MentionsInConcat([], []);
    } else {
      assert configs[0] in configs && forall c | c in configs[1..] :: c in configs;
      AllGoodMentions(w, configs[1..]);
      MentionsInConcat(NamesUpToError(w, configs[0]), AllNames(w, configs[1..]));
    }
  }

  lemma MentionsInConcat(a: seq<string>, b: seq<string>)
    ensures MentionsIn(a + b, true) == MentionsIn(a, true) + MentionsIn(b, true)
    ensures MentionsIn([], true) == []
  {
  }

  lemma FirstMentionsStep(front: seq<Mention>, last: Mention)
    ensures FirstMentions(front + [last]) ==
            FirstMentions(front) + if last.good && !Mentioned(front, last.name) then [last.name] else []
  {
    var ms := front + [last];
    assert ms[..|ms| - 1] == front;
    hide Mentioned;
  }

  lemma {:induction false} FirstMentionsOfGood(xs: seq<string>)
    ensures FirstMentions(MentionsIn(xs, true)) == Deduplicated(xs)
    decreases |xs|
  {
    if xs != [] {
      var front, last := xs[..|xs| - 1], xs[|xs| - 1];
      var ms := MentionsIn(xs, true);
      assert ms[..|ms| - 1] == MentionsIn(front, true);
      FirstMentionsOfGood(front);
      MentionedNames(front, true);
      FirstMentionsStep(MentionsIn(front, true), ms[|ms| - 1]);
      assert ms == MentionsIn(front, true) + [ms[|ms| - 1]];
      hide FirstMentions, MentionsIn, Mentioned;
    }
  }

  lemma {:induction false} NoFailures(w: World, configs: seq<Config>, returned: set<string>)
    requires forall c | c in configs :: WellFormed(w, c)
    ensures Failure !in Outcomes(w, configs, returned)
    decreases |configs|
  {
    if configs != [] {
      assert configs[0] in configs && forall c | c in configs[1..] :: c in configs;
      NoFailures(w, configs[1..], returned + Elements(NamesUpToError(w, configs[0])));
    }
  }

  lemma NoNames()
    ensures NamesOf([]) == [] && Yields([]) == []
  {
  }

  lemma NamesStep(items: seq<Item>)
    requires items != [] && items[0].Yield?
    ensures NamesOf(items) == [items[0].name] + NamesOf(items[1..])
  {
  }

  lemma YieldsStep(name: string, names: seq<string>)
    ensures Yields([name] + names) == [Yield(name)] + Yields(names)
  {
    assert ([name] + names)[1..] == names;
  }

  lemma {:induction false} WithoutFailures(items: seq<Item>)
    requires Failure !in items
    ensures items == Yields(NamesOf(items))
  {
    hide *;
    if items == [] {
      NoNames();
    } else {
      assert items[0] in items && forall x | x in items[1..] :: x in items;
      WithoutFailures(items[1..]);
      YieldsStep(items[0].name, NamesOf(items[1..]));
      NamesStep(items);
      assert items == [items[0]] + items[1..];
    }
  }

  // When every file is well-formed: no failure, and the first-occurrence deduplication of all names in
  // file order.
  lemma DeliversDeduplication(w: World, configs: seq<Config>)
    requires forall c | c in configs :: WellFormed(w, c)
    ensures Outcomes(w, configs, {}) == Yields(Deduplicated(AllNames(w, configs)))
  {
    DeliversFirstMentions(w, configs);
    AllGoodMentions(w, configs);
    FirstMentionsOfGood(AllNames(w, configs));
    NoFailures(w, configs, {});
    WithoutFailures(Outcomes(w, configs, {}));
  }

  // ---------------------------------------------------------------- sessions of calls

  datatype Call = HasNext | Next

  datatype Reply =
    | Has(more: bool)
    | Provider(name: string)           // next: a new instance of the class
    | NotInstantiable(name: string)    // next: the name is used up, but the class cannot be instantiated
    | NoSuchElement
    | ConfigurationError

  // One call on an iterator with `future` still to come.
  function Answer(w: World, future: seq<Item>, call: Call): (Reply, seq<Item>) {
    if future == [] then (if call == HasNext then Has(false) else NoSuchElement, [])
    else
      match future[0]
      case Failure => (ConfigurationError, future[1..])
      case Yield(name) =>
        if call == HasNext then (Has(true), future)
        else (if w.canInstantiate(name) then Provider(name) else NotInstantiable(name), future[1..])
  }

  // The names that next has delivered over a series of calls, and what is left then.
  function Session(w: World, future: seq<Item>, calls: seq<Call>): (seq<string>, seq<Item>)
    decreases |calls|
  {
    if calls == [] then ([], future)
    else
      var (reply, future') := Answer(w, future, calls[0]);
      var (names, rest) := Session(w, future', calls[1..]);
      ((match reply
        case Provider(name) => [name]
        case NotInstantiable(name) => [name]
        case _ => []) + names, rest)
  }

  // However hasNext and next are mixed, next delivers the names to come one by one, none lost or repeated.
  lemma {:induction false} SessionDelivers(w: World, future: seq<Item>, calls: seq<Call>)
    ensures var (names, rest) := Session(w, future, calls); names + NamesOf(rest) == NamesOf(future)
    decreases |calls|
  {
    if calls != [] {
      var (reply, future') := Answer(w, future, calls[0]);
      SessionDelivers(w, future', calls[1..]);
    }
  }

  // For a service with these configuration files: whatever calls are made, next has delivered a prefix of the
  // names that the eager specification lists; when all files are well-formed, of the deduplication.
  lemma SessionDeliversPrefix(w: World, resources: seq<Config>, calls: seq<Call>)
    ensures Session(w, Outcomes(w, resources, {}), calls).0 <= FirstMentions(Mentions(w, resources))
    ensures (forall c | c in resources :: WellFormed(w, c)) ==>
              Session(w, Outcomes(w, resources, {}), calls).0 <= Deduplicated(AllNames(w, resources))
  {
    hide *;
    SessionDelivers(w, Outcomes(w, resources, {}), calls);
    DeliversFirstMentions(w, resources);
    if forall c | c in resources :: WellFormed(w, c) {
      AllGoodMentions(w, resources);
      FirstMentionsOfGood(AllNames(w, resources));
    }
  }

  // What next answers: a name is used up in either case, and an instance is returned exactly if there can be one.
  lemma NextAnswers(w: World, future: seq<Item>)
    ensures var (reply, future') := Answer(w, future, Next);
            && (forall n :: Provider(n) == reply <==> [Yield(n)] <= future && w.canInstantiate(n))
            && (forall n :: NotInstantiable(n) == reply <==> [Yield(n)] <= future && !w.canInstantiate(n))
            && (reply == ConfigurationError <==> [Failure] <= future)
            && (reply == NoSuchElement <==> future == [] == future')
            && (forall item :: future == [item] + future' <==> reply != NoSuchElement && [item] <= future)
  {
    if future != [] {
      assert future == [future[0]] + future[1..];
    }
  }

  // Asking hasNext again gives the same answer and changes nothing.
  lemma HasNextIsIdempotent(w: World, future: seq<Item>)
    ensures var (reply, future') := Answer(w, future, HasNext);
            reply.Has? ==> future' == future && Answer(w, future', HasNext) == (reply, future)
  {
  }

  // ---------------------------------------------------------------- the iterator

  // parse with parseLine: reads a file line by line; None when a line is illegal, and then the names read
  // before that line stay marked as returned.
  method Parse(w: World, config: Config, returned: set<string>) returns (names: Option<seq<string>>, returned': set<string>)
    ensures returned' == returned + Elements(NamesUpToError(w, config))
    ensures names == if WellFormed(w, config) then Some(Fresh(NamesUpToError(w, config), returned)) else None
  {
    hide EntryOf, Fresh, NamesUpToError, Elements;
    returned' := returned;
    var list := [];
    assert config[0..] == config;
    for lc := 0 to |config|
      invariant forall k :: 0 <= k < lc ==> !EntryOf(w, config[k]).Illegal?
      invariant returned' + Elements(NamesUpToError(w, config[lc..])) == returned + Elements(NamesUpToError(w, config))
      invariant list + Fresh(NamesUpToError(w, config[lc..]), returned') == Fresh(NamesUpToError(w, config), returned)
    {
      ReadLine(w, config, lc);
      match EntryOf(w, config[lc]) {
        case Blank =>
        case Illegal =>
          NothingLeft(returned');
          return None, returned';
        case Named(ln) =>
          FreshStep(ln, NamesUpToError(w, config[lc + 1..]), returned');
          ElementsStep(ln, NamesUpToError(w, config[lc + 1..]));
          if ln !in returned' {
            list := list + [ln];
            returned' := returned' + {ln};
          }
      }
    }
    ReadLine(w, config, |config|);
    NothingLeft(returned');
    assert list + [] == list;
    return Some(list), returned';
  }

  lemma ReadLine(w: World, config: Config, lc: nat)
    requires lc <= |config|
    ensures lc == |config| ==> NamesUpToError(w, config[lc..]) == []
    ensures lc < |config| ==>
              NamesUpToError(w, config[lc..]) ==
              match EntryOf(w, config[lc])
              case Blank => NamesUpToError(w, config[lc + 1..])
              case Illegal => []
              case Named(name) => [name] + NamesUpToError(w, config[lc + 1..])
  {
    hide EntryOf;
    if lc < |config| {
      assert config[lc..][1..] == config[lc + 1..];
    }
  }

  lemma NothingLeft(seen: set<string>)
    ensures Fresh([], seen) == [] && Elements([]) == {}
  {
  }

  lemma FreshStep(x: string, rest: seq<string>, seen: set<string>)
    ensures Fresh([x] + rest, seen) == if x in seen then Fresh(rest, seen) else [x] + Fresh(rest, seen + {x})
  {
    assert ([x] + rest)[1..] == rest;
  }

  lemma ElementsStep(x: string, rest: seq<string>)
    ensures Elements([x] + rest) == {x} + Elements(rest)
  {
  }

  // ---------------------------------------------------------------- the iterator's state and what it means

  // Everything still to come: the name hasNext has taken, the current file's names, the unread files.
  ghost function FutureOf(w: World, nextName: Option<string>, pending: seq<string>, unread: seq<Config>, returned: set<string>): seq<Item> {
    (if nextName.Some? then [Yield(nextName.value)] else []) + Yields(pending) + Outcomes(w, unread, returned)
  }

  lemma FutureHead(w: World, name: string, pending: seq<string>, unread: seq<Config>, returned: set<string>)
    ensures var future := FutureOf(w, Some(name), pending, unread, returned);
            future != [] && future[0] == Yield(name) && future[1..] == FutureOf(w, None, pending, unread, returned)
  {
    hide Outcomes, Yields;
  }

  lemma FutureTake(w: World, pending: seq<string>, unread: seq<Config>, returned: set<string>)
    requires pending != []
    ensures FutureOf(w, None, pending, unread, returned) == FutureOf(w, Some(pending[0]), pending[1..], unread, returned)
  {
    hide Outcomes, Yields;
    YieldsStep(pending[0], pending[1..]);
    assert pending == [pending[0]] + pending[1..];
  }

  lemma FutureFile(w: World, unread: seq<Config>, returned: set<string>)
    requires unread != []
    ensures var names := NamesUpToError(w, unread[0]);
            var later := returned + Elements(names);
            FutureOf(w, None, [], unread, returned) ==
            if WellFormed(w, unread[0]) then FutureOf(w, None, Fresh(names, returned), unread[1..], later)
            else [Failure] + FutureOf(w, None, [], unread[1..], later)
  {
    hide NamesUpToError, WellFormed, Fresh;
    assert Yields([]) == [];
  }

  lemma FutureEmpty(w: World, returned: set<string>)
    ensures FutureOf(w, None, [], [], returned) == []
  {
  }

  class LazyIterator {
    const world: World
    const resources: seq<Config>      // what getResources finds
    var configs: Option<seq<Config>>  // null before the first call, then the files not yet opened
    var pending: seq<string>          // names of the current file not yet taken
    var returned: set<string>
    var nextName: Option<string>

    constructor (world: World, resources: seq<Config>)
      ensures this.world == world && this.resources == resources
      ensures Future() == Outcomes(world, resources, {})
    {
      this.world, this.resources := world, resources;
      configs, pending, returned, nextName := None, [], {}, None;
      new;
      hide Outcomes;
      NoNames();
    }

    ghost function Future(): seq<Item>
      reads this
    {
      FutureOf(world, nextName, pending, if configs.Some? then configs.value else resources, returned)
    }

    method CheckNext() returns (r: Reply)
      modifies this
      ensures (r, Future()) == Answer(world, old(Future()), HasNext)
      ensures r == Has(true) ==> nextName.Some?
    {
      hide FutureOf, WellFormed, NamesUpToError, Fresh;
      if nextName.Some? {
        FutureHead(world, nextName.value, pending, if configs.Some? then configs.value else resources, returned);
        return Has(true);
      }
      if configs.None? {
        configs := Some(resources);
      }
      while pending == []
        invariant configs.Some? && nextName.None? && Future() == old(Future())
        decreases |configs.value|
      {
        var rest := configs.value;
        if rest == [] {
          FutureEmpty(world, returned);
          return Has(false);
        }
        FutureFile(world, rest, returned);
        configs := Some(rest[1..]);
        var names, marked := Parse(world, rest[0], returned);
        returned := marked;
        if names.None? {
          return ConfigurationError;
        }
        pending := names.value;
      }
      FutureTake(world, pending, configs.value, returned);
      FutureHead(world, pending[0], pending[1..], configs.value, returned);
      nextName, pending := Some(pending[0]), pending[1..];
      r := Has(true);
    }

    method GetNext() returns (r: Reply)
      modifies this
      ensures (r, Future()) == Answer(world, old(Future()), Next)
      ensures r.Provider? ==> world.canInstantiate(r.name)
      ensures r.NotInstantiable? ==> !world.canInstantiate(r.name)
    {
      hide FutureOf;
      r := CheckNext();
      if r == Has(false) { return NoSuchElement; }
      if r.ConfigurationError? { return; }
      var cn := nextName.value;
      FutureHead(world, cn, pending, if configs.Some? then configs.value else resources, returned);
      nextName := None;
      r := if world.canInstantiate(cn) then Provider(cn) else NotInstantiable(cn);
    }
  }

  // A client of Service.providers: makes the calls in order, on a new iterator.
  method Providers(w: World, resources: seq<Config>, calls: seq<Call>) returns (names: seq<string>)
    ensures names == Session(w, Outcomes(w, resources, {}), calls).0
    ensures names <= FirstMentions(Mentions(w, resources))
    ensures (forall c | c in resources :: WellFormed(w, c)) ==> names <= Deduplicated(AllNames(w, resources))
  {
    hide *;
    var it := new LazyIterator(w, resources);
    names := [];
    assert calls[0..] == calls;
    for i := 0 to |calls|
      invariant it.world == w
      invariant names + Session(w, it.Future(), calls[i..]).0 == Session(w, Outcomes(w, resources, {}), calls).0
    {
      SessionStep(w, it.Future(), calls, i);
      var reply;
      match calls[i] {
        case HasNext => reply := it.CheckNext();
        case Next => reply := it.GetNext();
      }
      match reply {
        case Provider(name) => names := names + [name];
        case NotInstantiable(name) => names := names + [name];
        case _ =>
      }
    }
    assert calls[|calls|..] == [];
    SessionEnd(w, it.Future());
    SessionDeliversPrefix(w, resources, calls);
  }

  lemma SessionEnd(w: World, future: seq<Item>)
    ensures Session(w, future, []).0 == []
  {
  }

  lemma SessionStep(w: World, future: seq<Item>, calls: seq<Call>, i: nat)
    requires i < |calls|
    ensures var (reply, future') := Answer(w, future, calls[i]);
            Session(w, future, calls[i..]).0 ==
            (match reply
             case Provider(name) => [name]
             case NotInstantiable(name) => [name]
             case _ => []) + Session(w, future', calls[i + 1..]).0
  {
    hide Answer;
    assert calls[i..][1..] == calls[i + 1..];
  }
}
