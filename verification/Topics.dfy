/** Topic templates, the topics printed from them, and the matcher that parses a
    topic back into the variable it was printed from. */
module Topics {
  import opened Dataflow

  // ---- string search and replacement ----

  predicate OccursAt(s: string, p: string, i: nat) {
    i + |p| <= |s| && s[i..i + |p|] == p
  }

  // The first occurrence at or after i.
  function FindFrom(s: string, p: string, i: nat): (r: Option<nat>)
    ensures r.Some? ==> i <= r.value && OccursAt(s, p, r.value)
    ensures forall j :: i <= j && OccursAt(s, p, j) ==> r.Some? && r.value <= j
    decreases |s| - i
  {
    if i + |p| > |s| then None
    else if OccursAt(s, p, i) then Some(i)
    else FindFrom(s, p, i + 1)
  }

  // The first occurrence replaced.
  function ReplaceFirst(s: string, p: string, x: string): string {
    match FindFrom(s, p, 0)
    case None => s
    case Some(i) => s[..i] + x + s[i + |p|..]
  }

  // ---- the matcher ----

  // The regular expression of a template: it matches exactly the prefix, one or
  // more characters other than a slash, and the suffix.
  datatype Matcher = Matcher(pre: string, post: string)

  const PLACEHOLDER := "%RegisterName%"

  function CreateMatcher(template: string): Option<Matcher> {
    match FindFrom(template, PLACEHOLDER, 0)
    case None => None
    case Some(i) => Some(Matcher(template[..i], template[i + |PLACEHOLDER|..]))
  }

  function ParseTopic(m: Matcher, topic: string): Option<string> {
    if |topic| <= |m.pre| + |m.post| then None
    else
      var variable := topic[|m.pre|..|topic| - |m.post|];
      if topic[..|m.pre|] == m.pre && topic[|topic| - |m.post|..] == m.post && '/' !in variable
      then Some(variable)
      else None
  }

  predicate IsName(n: string) { n != "" && '/' !in n }

  lemma ParseTopicIff(m: Matcher, topic: string, v: string)
    ensures ParseTopic(m, topic) == Some(v) <==> topic == m.pre + v + m.post && IsName(v)
  {
    if topic == m.pre + v + m.post {
      assert topic[|m.pre|..|topic| - |m.post|] == v;
      assert topic[..|m.pre|] == m.pre;
      assert topic[|topic| - |m.post|..] == m.post;
    }
    if ParseTopic(m, topic) == Some(v) {
      assert topic == topic[..|m.pre|] + v + topic[|topic| - |m.post|..];
    }
  }

  // ---- printing ----

  datatype TopicConfig = TopicConfig(template: string, prefix: string, clientId: string)

  datatype Pair = Pair(old_: string, new_: string)

  function Pairs(c: TopicConfig, deviceName: string, registerName: string): seq<Pair> {
    [Pair("%DeviceName%", deviceName), Pair(PLACEHOLDER, registerName), Pair("%Prefix%", c.prefix),
      Pair("%ClientId%", c.clientId)]
  }

  // Replaces in one pass from the left; at each position the first pair whose
  // old string occurs there wins, and what it inserts is not scanned again.
  function ReplaceAll(pairs: seq<Pair>, s: string): string
    decreases |s|
  {
    if s == "" then ""
    else
      match FirstPair(pairs, s)
      case Some(p) => p.new_ + ReplaceAll(pairs, s[|p.old_|..])
      case None => [s[0]] + ReplaceAll(pairs, s[1..])
  }

  function FirstPair(pairs: seq<Pair>, s: string): (r: Option<Pair>)
    ensures r.Some? ==> 0 < |r.value.old_| <= |s| && r.value in pairs && s[..|r.value.old_|] == r.value.old_
  {
    if pairs == [] then None
    else if pairs[0].old_ != "" && pairs[0].old_ <= s then Some(pairs[0])
    else FirstPair(pairs[1..], s)
  }

  function Topic(c: TopicConfig, deviceName: string, registerName: string): string {
    ReplaceAll(Pairs(c, deviceName, registerName), c.template)
  }

  // What is published to the other side: the topic with the register name left open.
  function PublishedTemplate(c: TopicConfig, deviceName: string): string {
    Topic(c, deviceName, PLACEHOLDER)
  }

  // ---- the shape of a printed topic ----

  // The parts of the printed topic between the register names, which do not
  // depend on the register name.
  function Chunks(c: TopicConfig, deviceName: string, s: string): (cs: seq<string>)
    ensures cs != []
    decreases |s|
  {
    if s == "" then [""]
    else
      match FirstPair(Pairs(c, deviceName, ""), s)
      case Some(p) =>
        var rest := Chunks(c, deviceName, s[|p.old_|..]);
        if p.old_ == PLACEHOLDER then [""] + rest else Prepend(p.new_, rest)
      case None => Prepend([s[0]], Chunks(c, deviceName, s[1..]))
  }

  function Prepend(x: string, cs: seq<string>): (r: seq<string>)
    requires cs != []
    ensures |r| == |cs|
  {
    [x + cs[0]] + cs[1..]
  }

  lemma PrependTwice(x: string, y: string, cs: seq<string>)
    requires cs != []
    ensures Prepend(x, Prepend(y, cs)) == Prepend(x + y, cs) && Prepend("", cs) == cs
  {
    assert x + (y + cs[0]) == x + y + cs[0];
    assert "" + cs[0] == cs[0];
  }

  function Join(cs: seq<string>, n: string): string
    requires cs != []
  {
    if |cs| == 1 then cs[0] else cs[0] + n + Join(cs[1..], n)
  }

  lemma PairsAgree(c: TopicConfig, d: string, n: string, s: string)
    ensures var p, q := FirstPair(Pairs(c, d, n), s), FirstPair(Pairs(c, d, ""), s);
      && (p.Some? <==> q.Some?)
      && (p.Some? ==>
            && p.value.old_ == q.value.old_
            && p.value.new_ == if q.value.old_ == PLACEHOLDER then n else q.value.new_)
  {
    var ps, qs := Pairs(c, d, n), Pairs(c, d, "");
    assert ps[0] == qs[0] && ps[2] == qs[2] && ps[3] == qs[3];
    assert "%DeviceName%"[1] == 'D' && "%Prefix%"[1] == 'P' && "%ClientId%"[1] == 'C' && PLACEHOLDER[1] == 'R';
    FirstOfFour(ps, s);
    FirstOfFour(qs, s);
  }

  lemma FirstOfFour(ps: seq<Pair>, s: string)
    requires |ps| == 4 && forall i :: 0 <= i < 4 ==> ps[i].old_ != ""
    ensures FirstPair(ps, s) ==
      if ps[0].old_ <= s then Some(ps[0])
      else if ps[1].old_ <= s then Some(ps[1])
      else if ps[2].old_ <= s then Some(ps[2])
      else if ps[3].old_ <= s then Some(ps[3])
      else None
  {
    assert FirstPair(ps[1..], s) == if ps[1].old_ <= s then Some(ps[1]) else FirstPair(ps[1..][1..], s);
    assert ps[1..][1..] == ps[2..];
    assert FirstPair(ps[2..], s) == if ps[2].old_ <= s then Some(ps[2]) else FirstPair(ps[2..][1..], s);
    assert ps[2..][1..] == ps[3..];
    assert FirstPair(ps[3..], s) == if ps[3].old_ <= s then Some(ps[3]) else FirstPair(ps[3..][1..], s);
    assert ps[3..][1..] == [];
  }

  lemma JoinPrepends(x: string, cs: seq<string>, n: string)
    requires cs != []
    ensures Join(Prepend(x, cs), n) == x + Join(cs, n)
  {
    assert Prepend(x, cs)[1..] == cs[1..];
    if |cs| > 1 {
      assert x + cs[0] + n + Join(cs[1..], n) == x + (cs[0] + n + Join(cs[1..], n));
    }
  }

  lemma {:induction false} TopicIsJoin(c: TopicConfig, d: string, n: string, s: string)
    ensures ReplaceAll(Pairs(c, d, n), s) == Join(Chunks(c, d, s), n)
    decreases |s|
  {
    hide Pairs;
    if s != "" {
      PairsAgree(c, d, n, s);
      match FirstPair(Pairs(c, d, n), s)
      case Some(p) =>
        var rest := Chunks(c, d, s[|p.old_|..]);
        TopicIsJoin(c, d, n, s[|p.old_|..]);
        if p.old_ == PLACEHOLDER {
          assert ([""] + rest)[1..] == rest;
        } else {
          JoinPrepends(p.new_, rest, n);
        }
      case None =>
        var rest := Chunks(c, d, s[1..]);
        TopicIsJoin(c, d, n, s[1..]);
        JoinPrepends([s[0]], rest, n);
    }
  }

  // ---- printing and parsing are inverse ----

  ghost predicate ParsesBack(c: TopicConfig, d: string) {
    var m := CreateMatcher(PublishedTemplate(c, d));
    m.Some? && forall n :: IsName(n) ==> ParseTopic(m.value, Topic(c, d, n)) == Some(n)
  }

  ghost predicate SubstitutesBack(c: TopicConfig, d: string) {
    forall n :: IsName(n) ==> ReplaceFirst(PublishedTemplate(c, d), PLACEHOLDER, n) == Topic(c, d, n)
  }

  // The template asks for the register name once, and nothing before that place
  // reads as the placeholder.
  predicate SingleVariable(c: TopicConfig, d: string) {
    var cs := Chunks(c, d, c.template);
    |cs| == 2 && FindFrom(PublishedTemplate(c, d), PLACEHOLDER, 0) == Some(|cs[0]|)
  }

  lemma SingleVariableShape(c: TopicConfig, d: string, n: string)
    requires SingleVariable(c, d)
    ensures var cs, s := Chunks(c, d, c.template), PublishedTemplate(c, d);
      && Topic(c, d, n) == cs[0] + n + cs[1]
      && s[..|cs[0]|] == cs[0] && s[|cs[0]| + |PLACEHOLDER|..] == cs[1]
  {
    TopicIsJoin(c, d, n, c.template);
    TopicIsJoin(c, d, PLACEHOLDER, c.template);
    var cs := Chunks(c, d, c.template);
    assert Join(cs[1..], n) == cs[1] && Join(cs[1..], PLACEHOLDER) == cs[1];
    assert PublishedTemplate(c, d) == cs[0] + PLACEHOLDER + cs[1];
  }

  lemma MiddleDecides(a: string, m: string, n: string, b: string)
    ensures a + m + b == a + n + b <==> m == n
  {
    if a + m + b == a + n + b {
      assert m == (a + m + b)[|a|..|a| + |m|];
      assert n == (a + n + b)[|a|..|a| + |n|];
    }
  }

  // Any string put in for the register name is parsed back, unless it is no name.
  lemma ParsesNamesOnly(c: TopicConfig, d: string, n: string)
    requires SingleVariable(c, d)
    ensures var m := CreateMatcher(PublishedTemplate(c, d));
      m.Some? && ParseTopic(m.value, Topic(c, d, n)) == if IsName(n) then Some(n) else None
  {
    hide Topic, PublishedTemplate, ParseTopic, FindFrom;
    SingleVariableShape(c, d, n);
    var m := CreateMatcher(PublishedTemplate(c, d)).value;
    var v := ParseTopic(m, Topic(c, d, n));
    ParseTopicIff(m, Topic(c, d, n), n);
    if v.Some? {
      ParseTopicIff(m, Topic(c, d, n), v.value);
      MiddleDecides(m.pre, n, v.value, m.post);
    }
  }

  function TotalLength(cs: seq<string>): nat {
    if cs == [] then 0 else |cs[0]| + TotalLength(cs[1..])
  }

  lemma {:induction false} JoinLength(cs: seq<string>, x: char)
    requires cs != []
    ensures |Join(cs, [x])| == TotalLength(cs) + (|cs| - 1)
    ensures |Join(cs, PLACEHOLDER)| == TotalLength(cs) + 14 * (|cs| - 1)
  {
    if |cs| > 1 {
      JoinLength(cs[1..], x);
    }
  }

  lemma LengthNeedsTwoChunks(c: TopicConfig, d: string)
    requires |Topic(c, d, "a")| == |PublishedTemplate(c, d)| - 14 + 1
    ensures var cs := Chunks(c, d, c.template);
      && |cs| == 2
      && PublishedTemplate(c, d) == cs[0] + PLACEHOLDER + cs[1]
      && forall n :: Topic(c, d, n) == cs[0] + n + cs[1]
  {
    hide Chunks, ReplaceAll, TotalLength;
    var cs := Chunks(c, d, c.template);
    TopicIsJoin(c, d, "a", c.template);
    TopicIsJoin(c, d, PLACEHOLDER, c.template);
    JoinLength(cs, 'a');
    forall n
      ensures Topic(c, d, n) == cs[0] + n + cs[1]
    {
      TopicIsJoin(c, d, n, c.template);
      assert Join(cs[1..], n) == cs[1];
    }
  }

  // If substituting two different one-letter names at the first placeholder
  // prints the right topics, the template has a single variable.
  lemma SubstitutionNeedsSingle(c: TopicConfig, d: string, i: nat)
    requires FindFrom(PublishedTemplate(c, d), PLACEHOLDER, 0) == Some(i)
    requires Topic(c, d, "a") == PublishedTemplate(c, d)[..i] + "a" + PublishedTemplate(c, d)[i + |PLACEHOLDER|..]
    requires Topic(c, d, "b") == PublishedTemplate(c, d)[..i] + "b" + PublishedTemplate(c, d)[i + |PLACEHOLDER|..]
    ensures SingleVariable(c, d)
  {
    hide Chunks, ReplaceAll, Topic, PublishedTemplate;
    LengthNeedsTwoChunks(c, d);
    var cs, s := Chunks(c, d, c.template), PublishedTemplate(c, d);
    assert OccursAt(s, PLACEHOLDER, |cs[0]|);
    DifferAtVariable(cs[0], cs[1], s[..i], s[i + |PLACEHOLDER|..]);
  }

  lemma DifferAtVariable(pre: string, post: string, pre': string, post': string)
    requires pre + "a" + post == pre' + "a" + post' && pre + "b" + post == pre' + "b" + post'
    ensures |pre'| >= |pre|
  {
    var i := |pre'|;
    assert (pre' + "a" + post')[i] == 'a' && (pre' + "b" + post')[i] == 'b';
  }

  // Every register name is parsed back from its topic exactly when the template
  // has a single variable.
  lemma ParsesBackIff(c: TopicConfig, d: string)
    ensures ParsesBack(c, d) <==> SingleVariable(c, d)
  {
    var s := PublishedTemplate(c, d);
    if SingleVariable(c, d) {
      forall n | IsName(n)
        ensures ParseTopic(CreateMatcher(s).value, Topic(c, d, n)) == Some(n)
      {
        SingleVariableShape(c, d, n);
        ParseTopicIff(CreateMatcher(s).value, Topic(c, d, n), n);
      }
    }
    if ParsesBack(c, d) {
      assert IsName("a") && IsName("b");
      TwoNamesParse(c, d);
    }
  }

  lemma TwoNamesParse(c: TopicConfig, d: string)
    requires var m := CreateMatcher(PublishedTemplate(c, d));
      && m.Some?
      && ParseTopic(m.value, Topic(c, d, "a")) == Some("a") && ParseTopic(m.value, Topic(c, d, "b")) == Some("b")
    ensures SingleVariable(c, d)
  {
    var s := PublishedTemplate(c, d);
    ParseTopicIff(CreateMatcher(s).value, Topic(c, d, "a"), "a");
    ParseTopicIff(CreateMatcher(s).value, Topic(c, d, "b"), "b");
    SubstitutionNeedsSingle(c, d, FindFrom(s, PLACEHOLDER, 0).value);
  }

  // The template never asks for the register name and prints no placeholder.
  predicate NoVariable(c: TopicConfig, d: string) {
    |Chunks(c, d, c.template)| == 1 && FindFrom(PublishedTemplate(c, d), PLACEHOLDER, 0).None?
  }

  // The receiving side prints the sender's command topic for every register name
  // exactly under the same condition, or when one topic serves all registers.
  lemma SubstitutesBackIff(c: TopicConfig, d: string)
    ensures SubstitutesBack(c, d) <==> SingleVariable(c, d) || NoVariable(c, d)
  {
    var s := PublishedTemplate(c, d);
    if SingleVariable(c, d) || NoVariable(c, d) {
      forall n | IsName(n)
        ensures ReplaceFirst(s, PLACEHOLDER, n) == Topic(c, d, n)
      {
        if SingleVariable(c, d) {
          SingleVariableShape(c, d, n);
        } else {
          TopicIsJoin(c, d, n, c.template);
          TopicIsJoin(c, d, PLACEHOLDER, c.template);
        }
      }
    }
    if SubstitutesBack(c, d) {
      assert IsName("a") && IsName("b");
      TwoNamesDecide(c, d);
    }
  }

  lemma TwoNamesDecide(c: TopicConfig, d: string)
    requires ReplaceFirst(PublishedTemplate(c, d), PLACEHOLDER, "a") == Topic(c, d, "a")
    requires ReplaceFirst(PublishedTemplate(c, d), PLACEHOLDER, "b") == Topic(c, d, "b")
    ensures SingleVariable(c, d) || NoVariable(c, d)
  {
    var s := PublishedTemplate(c, d);
    if FindFrom(s, PLACEHOLDER, 0).None? {
      TopicIsJoin(c, d, "a", c.template);
      TopicIsJoin(c, d, PLACEHOLDER, c.template);
      JoinLength(Chunks(c, d, c.template), 'a');
    } else {
      SubstitutionNeedsSingle(c, d, FindFrom(s, PLACEHOLDER, 0).value);
    }
  }

  // A placeholder occurring exactly once in what is published, together with a
  // template that does ask for the register name, is enough.
  lemma OccursOnceIsSingle(c: TopicConfig, d: string)
    requires |Chunks(c, d, c.template)| >= 2
    requires forall i: nat, j: nat ::
      OccursAt(PublishedTemplate(c, d), PLACEHOLDER, i) && OccursAt(PublishedTemplate(c, d), PLACEHOLDER, j) ==> i == j
    ensures SingleVariable(c, d)
  {
    var s, cs := PublishedTemplate(c, d), Chunks(c, d, c.template);
    TopicIsJoin(c, d, PLACEHOLDER, c.template);
    assert s == cs[0] + PLACEHOLDER + Join(cs[1..], PLACEHOLDER);
    assert OccursAt(s, PLACEHOLDER, |cs[0]|);
    if |cs| > 2 {
      var rest := cs[1..];
      assert Join(rest, PLACEHOLDER) == rest[0] + PLACEHOLDER + Join(rest[1..], PLACEHOLDER);
      var j := |cs[0]| + |PLACEHOLDER| + |rest[0]|;
      assert s == (cs[0] + PLACEHOLDER + rest[0]) + PLACEHOLDER + Join(rest[1..], PLACEHOLDER);
      assert OccursAt(s, PLACEHOLDER, j);
    }
  }

  // ---- literal text and the default templates ----

  lemma {:induction false} LiteralChunks(c: TopicConfig, d: string, lit: string, s: string)
    requires '%' !in lit
    ensures Chunks(c, d, lit + s) == Prepend(lit, Chunks(c, d, s))
  {
    hide Prepend, Pairs, FirstPair;
    if lit == "" {
      assert lit + s == s;
      PrependTwice("", "", Chunks(c, d, s));
    } else {
      var t := lit + s;
      assert t[0] == lit[0] && t[1..] == lit[1..] + s;
      NoPairAtLiteral(c, d, t);
      LiteralChunks(c, d, lit[1..], s);
      PrependTwice([t[0]], lit[1..], Chunks(c, d, s));
      assert [t[0]] + lit[1..] == lit;
    }
  }

  lemma NoPairAtLiteral(c: TopicConfig, d: string, s: string)
    requires s != "" && s[0] != '%'
    ensures FirstPair(Pairs(c, d, ""), s).None?
  {
    FirstOfFour(Pairs(c, d, ""), s);
  }

  lemma FirstAfterLiteral(lit: string, p: string)
    requires p != "" && p[0] !in lit
    ensures FindFrom(lit + p, p, 0) == Some(|lit|)
  {
    hide FindFrom;
    var s := lit + p;
    assert OccursAt(s, p, |lit|);
    var i := FindFrom(s, p, 0).value;
    assert s[i] == s[i..i + |p|][0] == p[0];
    assert forall j :: 0 <= j < |lit| ==> s[j] == lit[j];
  }

  // With the shipped templates, a prefix and a device name free of percent signs,
  // every register name is parsed back and every command topic agrees.
  lemma DefaultTemplatesWork(kind: string, prefix: string, clientId: string, d: string)
    requires '%' !in kind && '%' !in prefix && '%' !in d
    ensures var c := TopicConfig("%Prefix%" + kind + "%DeviceName%/%RegisterName%", prefix, clientId);
      && ParsesBack(c, d) && SubstitutesBack(c, d) && SingleVariable(c, d)
      && PublishedTemplate(c, d) == prefix + kind + d + "/" + PLACEHOLDER
      && CreateMatcher(PublishedTemplate(c, d)) == Some(Matcher(prefix + kind + d + "/", ""))
  {
    var c := TopicConfig("%Prefix%" + kind + "%DeviceName%/%RegisterName%", prefix, clientId);
    DefaultChunks(c, kind, d);
    var cs, s := Chunks(c, d, c.template), PublishedTemplate(c, d);
    TopicIsJoin(c, d, PLACEHOLDER, c.template);
    assert Join(cs[1..], PLACEHOLDER) == cs[1];
    assert s == cs[0] + PLACEHOLDER;
    FirstAfterLiteral(cs[0], PLACEHOLDER);
    assert SingleVariable(c, d);
    ParsesBackIff(c, d);
    SubstitutesBackIff(c, d);
  }

  lemma VariableChunks(c: TopicConfig, d: string)
    ensures Chunks(c, d, PLACEHOLDER) == ["", ""]
  {
    FirstOfFour(Pairs(c, d, ""), PLACEHOLDER);
    assert "%DeviceName%"[1] == 'D' && PLACEHOLDER[1] == 'R';
    assert PLACEHOLDER[|PLACEHOLDER|..] == "";
    assert Chunks(c, d, "") == [""];
  }

  lemma DeviceChunks(c: TopicConfig, d: string, s: string)
    ensures Chunks(c, d, "%DeviceName%" + s) == Prepend(d, Chunks(c, d, s))
  {
    var t := "%DeviceName%" + s;
    FirstOfFour(Pairs(c, d, ""), t);
    assert "%DeviceName%" <= t && t[|"%DeviceName%"|..] == s;
    assert "%DeviceName%"[1] == 'D' && PLACEHOLDER[1] == 'R';
  }

  lemma PrefixChunks(c: TopicConfig, d: string, s: string)
    ensures Chunks(c, d, "%Prefix%" + s) == Prepend(c.prefix, Chunks(c, d, s))
  {
    var t := "%Prefix%" + s;
    FirstOfFour(Pairs(c, d, ""), t);
    assert "%Prefix%" <= t && t[|"%Prefix%"|..] == s && t[1] == 'P';
    assert "%DeviceName%"[1] == 'D' && PLACEHOLDER[1] == 'R' && "%Prefix%"[1] == 'P';
  }

  lemma DefaultTemplateSplits(kind: string)
    ensures "%Prefix%" + kind + "%DeviceName%/%RegisterName%"
      == "%Prefix%" + (kind + ("%DeviceName%" + ("/" + PLACEHOLDER)))
  {
    assert "%DeviceName%/%RegisterName%" == "%DeviceName%" + ("/" + PLACEHOLDER);
  }

  lemma DefaultChunks(c: TopicConfig, kind: string, d: string)
    requires '%' !in kind && '%' !in c.prefix && '%' !in d
    requires c.template == "%Prefix%" + kind + "%DeviceName%/%RegisterName%"
    ensures Chunks(c, d, c.template) == [c.prefix + kind + d + "/", ""]
    ensures '%' !in Chunks(c, d, c.template)[0]
  {
    hide Chunks;
    var slash := "/" + PLACEHOLDER;
    DefaultTemplateSplits(kind);
    PrefixChunks(c, d, kind + ("%DeviceName%" + slash));
    LiteralChunks(c, d, kind, "%DeviceName%" + slash);
    DeviceChunks(c, d, slash);
    LiteralChunks(c, d, "/", PLACEHOLDER);
    VariableChunks(c, d);
    assert c.prefix + (kind + (d + ("/" + ""))) == c.prefix + kind + d + "/";
  }

  // ---- the subscription filter of MQTT ----

  function Levels(s: string): (ls: seq<string>)
    ensures ls != []
  {
    if s == "" then [""]
    else if s[0] == '/' then [""] + Levels(s[1..])
    else Longer(s[0], Levels(s[1..]))
  }

  function Longer(x: char, ls: seq<string>): (r: seq<string>)
    requires ls != []
    ensures r != []
  {
    [[x] + ls[0]] + ls[1..]
  }

  // Level-wise matching of section 4.7.1 of MQTT Version 5.0.
  predicate MatchesLevels(filter: seq<string>, levels: seq<string>) {
    if filter == [] then levels == []
    else if filter[0] == "#" then true
    else levels != [] && (filter[0] == "+" || filter[0] == levels[0]) && MatchesLevels(filter[1..], levels[1..])
  }

  predicate MatchesFilter(filter: string, topic: string) {
    MatchesLevels(Levels(filter), Levels(topic))
  }

  // The last level of x continued by the first of y.
  function Glue(x: seq<string>, y: seq<string>): seq<string>
    requires x != [] && y != []
  {
    x[..|x| - 1] + [x[|x| - 1] + y[0]] + y[1..]
  }

  lemma GlueSlash(x: seq<string>, y: seq<string>)
    requires x != [] && y != []
    ensures [""] + Glue(x, y) == Glue([""] + x, y)
  {
    assert ([""] + x)[..|x|] == [""] + x[..|x| - 1];
  }

  lemma GlueLonger(c: char, x: seq<string>, y: seq<string>)
    requires x != [] && y != []
    ensures Glue(x, y) != [] && Longer(c, Glue(x, y)) == Glue(Longer(c, x), y)
  {
    if |x| == 1 {
      assert [c] + (x[0] + y[0]) == [c] + x[0] + y[0];
      assert Glue(x, y)[1..] == y[1..];
    } else {
      assert Longer(c, x)[..|x| - 1] == [[c] + x[0]] + x[1..|x| - 1];
      assert Glue(x, y)[0] == x[0] && Glue(x, y)[1..] == x[1..|x| - 1] + [x[|x| - 1] + y[0]] + y[1..];
    }
  }

  lemma {:induction false} LevelsConcat(a: string, b: string)
    ensures Levels(a + b) == Glue(Levels(a), Levels(b))
  {
    hide Glue;
    if a == "" {
      assert a + b == b;
      GlueNothing(Levels(b));
    } else {
      assert (a + b)[1..] == a[1..] + b && (a + b)[0] == a[0];
      LevelsConcat(a[1..], b);
      if a[0] == '/' {
        GlueSlash(Levels(a[1..]), Levels(b));
      } else {
        GlueLonger(a[0], Levels(a[1..]), Levels(b));
      }
    }
  }

  lemma GlueNothing(y: seq<string>)
    requires y != []
    ensures Glue([""], y) == y
  {
    assert "" + y[0] == y[0];
  }

  // The levels with slashes in between.
  function Unlevels(ls: seq<string>): string
    requires ls != []
  {
    if |ls| == 1 then ls[0] else ls[0] + "/" + Unlevels(ls[1..])
  }

  lemma {:induction false} UnlevelsOfLevels(s: string)
    ensures Unlevels(Levels(s)) == s
  {
    if s != "" {
      UnlevelsOfLevels(s[1..]);
      var rest := Levels(s[1..]);
      if s[0] == '/' {
        assert ([""] + rest)[1..] == rest;
        assert "" + "/" + s[1..] == s;
      } else {
        assert Longer(s[0], rest)[1..] == rest[1..];
        assert s == [s[0]] + s[1..];
        if |rest| > 1 {
          assert [s[0]] + rest[0] + "/" + Unlevels(rest[1..]) == [s[0]] + (rest[0] + "/" + Unlevels(rest[1..]));
        }
      }
    }
  }

  lemma LevelsInjective(a: string, b: string)
    requires Levels(a) == Levels(b)
    ensures a == b
  {
    UnlevelsOfLevels(a);
    UnlevelsOfLevels(b);
  }

  predicate Free(ls: seq<string>, x: char) {
    forall i :: 0 <= i < |ls| ==> x !in ls[i]
  }

  lemma {:induction false} LevelsHaveNoSlash(s: string)
    ensures Free(Levels(s), '/')
  {
    if s != "" {
      LevelsHaveNoSlash(s[1..]);
    }
  }

  lemma {:induction false} SingleLevel(s: string)
    requires '/' !in s
    ensures Levels(s) == [s]
  {
    if s != "" {
      assert s[0] in s;
      SingleLevel(s[1..]);
      assert [s[0]] + s[1..] == s;
    }
  }

  lemma {:induction false} LevelsOf(s: string, x: char)
    requires x !in s
    ensures Free(Levels(s), x)
  {
    if s != "" {
      LevelsOf(s[1..], x);
    }
  }

  predicate NoWildcard(ls: seq<string>) {
    forall i :: 0 <= i < |ls| ==> ls[i] != "+" && ls[i] != "#"
  }

  lemma {:induction false} MatchesAround(a: seq<string>, b: seq<string>, levels: seq<string>)
    requires NoWildcard(a) && NoWildcard(b)
    ensures MatchesLevels(a + ["+"] + b, levels) <==>
      |levels| == |a| + 1 + |b| && levels[..|a|] == a && levels[|a| + 1..] == b
  {
    var f := a + ["+"] + b;
    if a == [] {
      assert f[1..] == b;
      if levels != [] {
        MatchesExactly(b, levels[1..]);
      }
    } else {
      assert f[1..] == a[1..] + ["+"] + b;
      assert f[0] == a[0];
      if levels != [] {
        MatchesAround(a[1..], b, levels[1..]);
        var n := |a|;
        if |levels| == n + 1 + |b| {
          assert levels[1..][..n - 1] == levels[1..n] && levels[1..][n..] == levels[n + 1..];
          assert levels[..n] == [levels[0]] + levels[1..n] && a == [a[0]] + a[1..];
        }
      }
    }
  }

  lemma {:induction false} MatchesExactly(b: seq<string>, levels: seq<string>)
    requires NoWildcard(b)
    ensures MatchesLevels(b, levels) <==> levels == b
  {
    if b != [] && levels != [] {
      MatchesExactly(b[1..], levels[1..]);
      assert b == [b[0]] + b[1..] && levels == [levels[0]] + levels[1..];
    }
  }

  // The placeholder fills a whole level and nothing else in the template is a wildcard.
  predicate WholeLevel(m: Matcher) {
    && (m.pre == "" || m.pre[|m.pre| - 1] == '/')
    && (m.post == "" || m.post[0] == '/')
    && '+' !in m.pre && '#' !in m.pre && '+' !in m.post && '#' !in m.post
  }

  lemma {:induction false} LastLevelEmpty(s: string)
    requires s == "" || s[|s| - 1] == '/'
    ensures Levels(s)[|Levels(s)| - 1] == ""
  {
    if |s| > 1 {
      LastLevelEmpty(s[1..]);
    }
  }

  lemma GlueAfterEmpty(a: seq<string>, x: string)
    requires a != [] && a[|a| - 1] == ""
    ensures Glue(a, [x]) == a[..|a| - 1] + [x]
  {
    assert "" + x == x;
  }

  lemma GlueBeforeEmpty(a: seq<string>, x: string, b: seq<string>)
    requires b != [] && b[0] == ""
    ensures Glue(a + [x], b) == a + [x] + b[1..]
  {
    assert x + "" == x;
    assert (a + [x])[..|a|] == a;
  }

  // The levels around the one the variable fills.
  lemma WholeLevelShape(m: Matcher, x: string)
    requires WholeLevel(m) && '/' !in x
    ensures var a, b := Levels(m.pre), Levels(m.post);
      Levels(m.pre + x + m.post) == a[..|a| - 1] + [x] + b[1..]
  {
    hide Levels, Glue;
    var a, b := Levels(m.pre), Levels(m.post);
    LastLevelEmpty(m.pre);
    FirstLevelEmpty(m.post);
    SingleLevel(x);
    LevelsConcat(m.pre, x);
    GlueAfterEmpty(a, x);
    LevelsConcat(m.pre + x, m.post);
    GlueBeforeEmpty(a[..|a| - 1], x, b);
  }

  lemma FirstLevelEmpty(s: string)
    requires s == "" || s[0] == '/'
    ensures Levels(s)[0] == ""
  {
  }

  // A topic is parsed exactly when the subscription's filter, the template with a
  // single-level wildcard (section 4.7.1.3), matches it with a non-empty level
  // there; the name parsed is that level.
  lemma ParsesWhatTheFilterMatches(m: Matcher, topic: string)
    requires WholeLevel(m)
    ensures var n := |Levels(m.pre)| - 1;
      && (ParseTopic(m, topic).Some? <==>
            MatchesFilter(m.pre + "+" + m.post, topic) && n < |Levels(topic)| && Levels(topic)[n] != "")
      && (ParseTopic(m, topic).Some? ==> ParseTopic(m, topic).value == Levels(topic)[n])
  {
    hide Levels, MatchesLevels, ParseTopic;
    var a, b, levels := Levels(m.pre), Levels(m.post), Levels(topic);
    var n := |a| - 1;
    WholeLevelShape(m, "+");
    FilterMatches(m, topic);
    if ParseTopic(m, topic).Some? {
      var v := ParseTopic(m, topic).value;
      ParseTopicIff(m, topic, v);
      WholeLevelShape(m, v);
      assert levels == a[..n] + [v] + b[1..];
    }
    if MatchesFilter(m.pre + "+" + m.post, topic) && levels[n] != "" {
      var v := levels[n];
      LevelsHaveNoSlash(topic);
      WholeLevelShape(m, v);
      assert levels == levels[..n] + [v] + levels[n + 1..];
      LevelsInjective(topic, m.pre + v + m.post);
      ParseTopicIff(m, topic, v);
    }
  }

  lemma FilterMatches(m: Matcher, topic: string)
    requires WholeLevel(m)
    ensures var a, b, levels := Levels(m.pre), Levels(m.post), Levels(topic);
      var n := |a| - 1;
      MatchesFilter(m.pre + "+" + m.post, topic) <==>
        |levels| == n + |b| && levels[..n] == a[..n] && levels[n + 1..] == b[1..]
  {
    hide Levels, MatchesLevels;
    var a, b, levels := Levels(m.pre), Levels(m.post), Levels(topic);
    LevelsOf(m.pre, '+');
    LevelsOf(m.pre, '#');
    LevelsOf(m.post, '+');
    LevelsOf(m.post, '#');
    WholeLevelShape(m, "+");
    FreeIsNoWildcard(a);
    FreeIsNoWildcard(b);
    MatchesAround(a[..|a| - 1], b[1..], levels);
  }

  lemma FreeIsNoWildcard(ls: seq<string>)
    requires Free(ls, '+') && Free(ls, '#')
    ensures NoWildcard(ls)
  {
    assert '+' in "+" && '#' in "#";
  }

  // Without wildcard characters; a topic that is published must be so (section 3.3.2.1).
  predicate Plain(s: string) { '+' !in s && '#' !in s }

  // A filter without wildcards matches its own topic and no other.
  lemma PlainFilter(f: string, topic: string)
    requires Plain(f)
    ensures MatchesFilter(f, topic) <==> f == topic
  {
    hide Levels, MatchesLevels, Free, NoWildcard;
    LevelsOf(f, '+');
    LevelsOf(f, '#');
    FreeIsNoWildcard(Levels(f));
    MatchesExactly(Levels(f), Levels(topic));
    if Levels(f) == Levels(topic) {
      LevelsInjective(f, topic);
    }
  }

  // Without wildcards in prefix and device name, the shipped templates have none,
  // and the variable fills a level of its own.
  lemma DefaultTemplatesArePlain(kind: string, prefix: string, clientId: string, d: string)
    requires '%' !in kind && '%' !in prefix && '%' !in d
    requires Plain(kind) && Plain(prefix) && Plain(d)
    ensures var c := TopicConfig("%Prefix%" + kind + "%DeviceName%/%RegisterName%", prefix, clientId);
      var m := CreateMatcher(PublishedTemplate(c, d));
      SingleVariable(c, d) && Plain(PublishedTemplate(c, d)) && m.Some? && WholeLevel(m.value)
  {
    hide PublishedTemplate, CreateMatcher, SingleVariable, ParsesBack, SubstitutesBack;
    DefaultTemplatesWork(kind, prefix, clientId, d);
  }

  lemma {:induction false} PlainJoin(cs: seq<string>, n: string)
    requires cs != []
    ensures Plain(Join(cs, n)) <==> (forall i :: 0 <= i < |cs| ==> Plain(cs[i])) && (|cs| > 1 ==> Plain(n))
  {
    if |cs| > 1 {
      PlainJoin(cs[1..], n);
      assert forall i :: 0 < i < |cs| ==> cs[i] == cs[1..][i - 1];
    }
  }

  // A wildcard within a longer level is none (section 4.7.1.3): a filter with one
  // matches no topic without that character.
  lemma {:induction false} PartialWildcard(filter: seq<string>, levels: seq<string>, i: nat)
    requires i < |filter| && '+' in filter[i] && filter[i] != "+" && Free(filter, '#') && Free(levels, '+')
    ensures !MatchesLevels(filter, levels)
  {
    assert filter[0] != "#" by { assert '#' in "#"; }
    if levels != [] && i > 0 {
      PartialWildcard(filter[1..], levels[1..], i - 1);
    }
  }

  // So the subscription takes a topic of its template exactly if that has no
  // wildcards and the variable fills a level, apart from names with a slash.
  lemma SubscriptionTakes(m: Matcher, n: string)
    requires IsName(n)
    ensures var topic := m.pre + n + m.post;
      Plain(topic) && MatchesFilter(m.pre + "+" + m.post, topic) <==> WholeLevel(m) && Plain(n)
  {
    hide Levels, MatchesLevels, ParseTopic;
    var topic := m.pre + n + m.post;
    if WholeLevel(m) {
      ParseTopicIff(m, topic, n);
      ParsesWhatTheFilterMatches(m, topic);
    } else if Plain(topic) {
      PlainParts(m.pre, n, m.post);
      NotALevel(m, topic);
    }
  }

  lemma PlainParts(a: string, n: string, b: string)
    requires Plain(a + n + b)
    ensures Plain(a) && Plain(n) && Plain(b)
  {
    assert forall x :: x in a || x in n || x in b ==> x in a + n + b;
  }

  lemma NotALevel(m: Matcher, topic: string)
    requires !WholeLevel(m) && Plain(m.pre) && Plain(m.post) && Plain(topic)
    ensures !MatchesFilter(m.pre + "+" + m.post, topic)
  {
    var f, a, b := m.pre + "+" + m.post, Levels(m.pre), Levels(m.post);
    LevelsOf(f, '#');
    LevelsOf(topic, '+');
    if m.pre != "" && m.pre[|m.pre| - 1] != '/' {
      LastLevel(m.pre);
    } else {
      FirstLevel(m.post);
    }
    hide Levels, MatchesLevels, Plain, WholeLevel, Free;
    var level := a[|a| - 1] + "+" + b[0];
    var i := AroundTheWildcard(m);
    assert '+' in level;
    PartialWildcard(Levels(f), Levels(topic), i);
  }

  lemma AroundTheWildcard(m: Matcher) returns (i: nat)
    ensures var a, b, ls := Levels(m.pre), Levels(m.post), Levels(m.pre + "+" + m.post);
      i < |ls| && ls[i] == a[|a| - 1] + "+" + b[0]
  {
    SingleLevel("+");
    LevelsConcat(m.pre, "+");
    LevelsConcat(m.pre + "+", m.post);
    i := |Levels(m.pre)| - 1;
  }

  lemma {:induction false} LastLevel(s: string)
    requires s != "" && s[|s| - 1] != '/'
    ensures Levels(s)[|Levels(s)| - 1] != ""
  {
    if |s| > 1 {
      LastLevel(s[1..]);
    }
  }

  lemma FirstLevel(s: string)
    requires s != "" && s[0] != '/'
    ensures Levels(s)[0] != ""
  {
  }

  // A plain template gives plain topics for plain names.
  lemma PlainTopic(c: TopicConfig, d: string, n: string)
    requires Plain(PublishedTemplate(c, d)) && Plain(n)
    ensures Plain(Topic(c, d, n))
  {
    hide Join, Chunks, ReplaceAll;
    TopicIsJoin(c, d, n, c.template);
    TopicIsJoin(c, d, PLACEHOLDER, c.template);
    PlainJoin(Chunks(c, d, c.template), n);
    PlainJoin(Chunks(c, d, c.template), PLACEHOLDER);
  }

  // The filter subscribed to is the template with the placeholder replaced.
  lemma SubscribedFilter(template: string)
    requires CreateMatcher(template).Some?
    ensures var m := CreateMatcher(template).value;
      ReplaceFirst(template, PLACEHOLDER, "+") == m.pre + "+" + m.post
      && template == m.pre + PLACEHOLDER + m.post
  {
    var i := FindFrom(template, PLACEHOLDER, 0).value;
    assert template == template[..i] + template[i..i + |PLACEHOLDER|] + template[i + |PLACEHOLDER|..];
  }
}
