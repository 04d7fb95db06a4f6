/** `replaceUrl` (src/worker.js:98-139): the client URL becomes the backend
    endpoint by one first-match server-prefix substitution followed by a
    guarded pass over the extension table. */
module Rewrite {
  import opened Wrappers
  import opened Text

  /** A substitution pair: the first occurrence of `from` becomes `to`. */
  datatype Rule = Rule(from: string, to: string)

  const Backend: string := "https://drive2.cscloud12.online/"

  /** The server-prefix table, in source order (src/worker.js:102-112). */
  const ServerRules: seq<Rule> := [
    Rule("https://google.com/server5/1:/", Backend + "server5/"),
    Rule("https://google.com/server4/1:/", Backend + "server4/"),
    Rule("https://google.com/server3/1:/", Backend + "server3/"),
    Rule("https://google.com/server21/1:/", Backend + "server2/"),
    Rule("https://google.com/server22/1:/", Backend + "server2/"),
    Rule("https://google.com/server23/1:/", Backend + "server2/"),
    Rule("https://google.com/server11/1:/", Backend + "server1/"),
    Rule("https://google.com/server12/1:/", Backend + "server1/"),
    Rule("https://google.com/server13/1:/", Backend + "server1/")
  ]

  /** The bot query the two bot-specific pairs carry over unchanged. */
  const BotQuery: string := "bot=cscloud2bot&code="

  const BotMp4: Rule := Rule(".mp4?" + BotQuery, "?ext=mp4&" + BotQuery)
  const PlainMp4: Rule := Rule(".mp4", "?ext=mp4")
  const BotMkv: Rule := Rule(".mkv?" + BotQuery, "?ext=mkv&" + BotQuery)
  const PlainMkv: Rule := Rule(".mkv", "?ext=mkv")
  const PlainZip: Rule := Rule(".zip", "?ext=zip")

  /** The extension table, in source order (src/worker.js:123-129). */
  const ExtensionRules: seq<Rule> := [BotMp4, PlainMp4, BotMkv, PlainMkv, PlainZip]

  /** Rule `k` is the first rule of `rules` whose source occurs in `url`. */
  ghost predicate FirstMatchingRule(url: string, rules: seq<Rule>, k: int) {
    && 0 <= k < |rules|
    && Includes(url, rules[k].from)
    && forall j :: 0 <= j < k ==> !Includes(url, rules[j].from)
  }

  /** The server loop with its `break` (src/worker.js:114-119). */
  function ServerPass(url: string, rules: seq<Rule>): (r: string)
    ensures (forall k :: 0 <= k < |rules| ==> !Includes(url, rules[k].from)) ==> r == url
    decreases rules
  {
    if rules == [] then url
    else if Includes(url, rules[0].from) then ReplaceFirst(url, rules[0].from, rules[0].to)
    else ServerPass(url, rules[1..])
  }

  /** First match wins: the first rule whose source occurs fires once, and
      no later rule is looked at. */
  lemma {:induction false} ServerPassFirstMatch(url: string, rules: seq<Rule>, k: int)
    requires FirstMatchingRule(url, rules, k)
    ensures ServerPass(url, rules) == ReplaceFirst(url, rules[k].from, rules[k].to)
    decreases k
  {
    if k > 0 {
      assert !Includes(url, rules[0].from);
      assert FirstMatchingRule(url, rules[1..], k - 1);
      ServerPassFirstMatch(url, rules[1..], k - 1);
    }
  }

  /** No source prefix occurs: the URL is unchanged. */
  lemma {:induction false} ServerPassNoMatch(url: string, rules: seq<Rule>)
    requires forall k :: 0 <= k < |rules| ==> !Includes(url, rules[k].from)
    ensures ServerPass(url, rules) == url
    decreases rules
  {
    if rules != [] {
      assert !Includes(url, rules[0].from);
      ServerPassNoMatch(url, rules[1..]);
    }
  }

  /** A rule of the extension table fires only when its source occurs and
      its target does not (src/worker.js:133). */
  predicate Fires(url: string, rule: Rule) {
    Includes(url, rule.from) && !Includes(url, rule.to)
  }

  /** One guarded step of the extension loop. */
  function GuardedStep(url: string, rule: Rule): (r: string)
    ensures !Fires(url, rule) ==> r == url
    ensures Fires(url, rule) ==> Includes(r, rule.to)
  {
    if Fires(url, rule) then
      ReplaceFirstIntroduces(url, rule.from, rule.to);
      ReplaceFirst(url, rule.from, rule.to)
    else url
  }

  /** The extension loop: every rule, in table order, one guarded step each. */
  function ExtensionPass(url: string, rules: seq<Rule>): (r: string)
    ensures (forall k :: 0 <= k < |rules| ==> !Includes(url, rules[k].from)) ==> r == url
    decreases rules
  {
    if rules == [] then url
    else ExtensionPass(GuardedStep(url, rules[0]), rules[1..])
  }

  /** No extension source occurs: the URL is unchanged. */
  lemma {:induction false} ExtensionPassNoMatch(url: string, rules: seq<Rule>)
    requires forall k :: 0 <= k < |rules| ==> !Includes(url, rules[k].from)
    ensures ExtensionPass(url, rules) == url
    decreases rules
  {
    if rules != [] {
      assert GuardedStep(url, rules[0]) == url;
      ExtensionPassNoMatch(url, rules[1..]);
    }
  }

  /** Running the pass over a table is running it over a prefix and then
      over the rest. */
  lemma {:induction false} ExtensionPassSplit(url: string, rules: seq<Rule>, n: nat)
    requires n <= |rules|
    ensures ExtensionPass(url, rules) == ExtensionPass(ExtensionPass(url, rules[..n]), rules[n..])
    decreases n
  {
    if n > 0 {
      assert rules[..n][1..] == rules[1..][..n - 1];
      assert rules[n..] == rules[1..][n - 1..];
      ExtensionPassSplit(GuardedStep(url, rules[0]), rules[1..], n - 1);
    }
  }

  /** `replaceUrl` itself. */
  function ReplaceUrl(url: string): (r: string)
    ensures (forall k :: 0 <= k < |ServerRules| ==> !Includes(url, ServerRules[k].from))
            && (forall k :: 0 <= k < |ExtensionRules| ==> !Includes(url, ExtensionRules[k].from))
            ==> r == url
  {
    ExtensionPass(ServerPass(url, ServerRules), ExtensionRules)
  }

  /** A guarded step never fires twice: once its target is present, the
      rule is inert. */
  lemma {:induction false} GuardedStepIdempotent(url: string, rule: Rule)
    ensures GuardedStep(GuardedStep(url, rule), rule) == GuardedStep(url, rule)
  {
  }

  /** Once the target of a rule is present, its step changes nothing. */
  lemma GuardedStepSkipsPresentTarget(url: string, rule: Rule)
    requires Includes(url, rule.to)
    ensures GuardedStep(url, rule) == url
  {
  }

  /** The bot form of `.mp4` takes precedence: when it fires, the plain
      `.mp4` rule that follows it is suppressed, because the bot target
      starts with `?ext=mp4`. */
  lemma BotMp4SuppressesPlain(url: string)
    requires Fires(url, BotMp4)
    ensures GuardedStep(GuardedStep(url, BotMp4), PlainMp4) == GuardedStep(url, BotMp4)
  {
    assert BotMp4.to[..|PlainMp4.to|] == PlainMp4.to;
    IncludesPrefix(BotMp4.to, PlainMp4.to);
    ReplaceFirstKeeps(url, BotMp4.from, BotMp4.to, PlainMp4.to);
  }

  /** The same precedence for `.mkv`. */
  lemma BotMkvSuppressesPlain(url: string)
    requires Fires(url, BotMkv)
    ensures GuardedStep(GuardedStep(url, BotMkv), PlainMkv) == GuardedStep(url, BotMkv)
  {
    assert BotMkv.to[..|PlainMkv.to|] == PlainMkv.to;
    IncludesPrefix(BotMkv.to, PlainMkv.to);
    ReplaceFirstKeeps(url, BotMkv.from, BotMkv.to, PlainMkv.to);
  }

  /** A URL that mentions no server prefix and no extension passes through
      unchanged. */
  lemma {:induction false} ReplaceUrlPassThrough(url: string)
    requires forall k :: 0 <= k < |ServerRules| ==> !Includes(url, ServerRules[k].from)
    requires forall k :: 0 <= k < |ExtensionRules| ==> !Includes(url, ExtensionRules[k].from)
    ensures ReplaceUrl(url) == url
  {
    ServerPassNoMatch(url, ServerRules);
    ExtensionPassNoMatch(url, ExtensionRules);
  }

  /** The four video rules leave a URL without `.mp4` and `.mkv` alone. */
  lemma VideoRulesSilent(url: string)
    requires !Includes(url, ".mp4") && !Includes(url, ".mkv")
    ensures ExtensionPass(url, ExtensionRules[..4]) == url
  {
    assert BotMp4.from[..4] == ".mp4";
    NotIncludesLonger(url, ".mp4", BotMp4.from);
    assert BotMkv.from[..4] == ".mkv";
    NotIncludesLonger(url, ".mkv", BotMkv.from);
    ExtensionPassNoMatch(url, ExtensionRules[..4]);
  }

  /** A URL on no known server, with no `.mp4` or `.mkv`: only its first
      `.zip` changes, to `?ext=zip`, and only when `?ext=zip` is not
      already present; otherwise the URL is left as it is. */
  lemma ReplaceUrlZip(url: string)
    requires forall k :: 0 <= k < |ServerRules| ==> !Includes(url, ServerRules[k].from)
    requires !Includes(url, ".mp4") && !Includes(url, ".mkv")
    ensures !Includes(url, "?ext=zip") ==> ReplaceUrl(url) == ReplaceFirst(url, ".zip", "?ext=zip")
    ensures Includes(url, "?ext=zip") ==> ReplaceUrl(url) == url
  {
    ServerPassNoMatch(url, ServerRules);
    VideoRulesSilent(url);
    ExtensionPassSplit(url, ExtensionRules, 4);
    assert ExtensionRules[4..] == [PlainZip];
  }

  /** Rules 2..4 of the extension table cannot fire on a URL without
      `k` and `z`. */
  lemma {:induction false} MkvZipInert(url: string)
    requires 'k' !in url && 'z' !in url
    ensures ExtensionPass(url, ExtensionRules[2..]) == url
  {
    NotIncludesByChar(url, BotMkv.from, 'k');
    NotIncludesByChar(url, PlainMkv.from, 'k');
    NotIncludesByChar(url, PlainZip.from, 'z');
    ExtensionPassNoMatch(url, ExtensionRules[2..]);
  }

  /** Text holding none of the characters `?`, `4`, `k`, `z`, so that no
      bot rule, `.mkv` rule or `.zip` rule can match inside it. */
  predicate Unmarked(s: string) {
    '?' !in s && '4' !in s && 'k' !in s && 'z' !in s
  }

  /** The backend's server-5 path is unmarked. */
  lemma Server5HostChars()
    ensures Unmarked(ServerRules[0].to)
  {
    assert Backend == "https://" + "drive2.c" + "scloud12" + ".online/";
    assert ServerRules[0].to == "https://" + "drive2.c" + "scloud12" + ".online/" + "server5/";
    forall c | c == '?' || c == '4' || c == 'k' || c == 'z'
      ensures c !in ServerRules[0].to
    {
      assert c !in "https://" && c !in "drive2.c" && c !in "scloud12";
      assert c !in ".online/" && c !in "server5/";
    }
  }

  /** The plain `.mp4` rule on `x.mp4`, with no `?` and no `4` in `x`,
      rewrites exactly the final extension. */
  lemma PlainMp4OnName(x: string)
    requires '?' !in x && '4' !in x
    ensures GuardedStep(x + ".mp4", PlainMp4) == x + "?ext=mp4"
  {
    var s1 := x + ".mp4";
    NotIncludesByChar(s1, "?ext=mp4", '?');
    assert ".mp4"[..3] == ".mp";
    NotIncludesByChar(x + ".mp4"[..3], ".mp4", '4');
    IndexOfAfterPrefix(x, ".mp4", "");
    assert s1 == x + ".mp4" + "";
    assert Fires(s1, PlainMp4);
    assert s1[|x| + 4..] == [];
  }

  /** The bot-specific `.mp4` rule cannot fire on a URL without `?`. */
  lemma BotMp4Silent(url: string)
    requires '?' !in url
    ensures GuardedStep(url, BotMp4) == url
  {
    assert BotMp4.from[4] == '?';
    NotIncludesByChar(url, BotMp4.from, '?');
  }

  /** On `x.mp4` with no `?` and no `4` in `x`, the `.mp4` rules turn the
      extension into `?ext=mp4`. */
  lemma Mp4RulesOnName(x: string)
    requires '?' !in x && '4' !in x
    ensures ExtensionPass(x + ".mp4", ExtensionRules[..2]) == x + "?ext=mp4"
  {
    var s1 := x + ".mp4";
    var rules := ExtensionRules[..2];
    assert rules[0] == BotMp4 && rules[1..] == [PlainMp4];
    BotMp4Silent(s1);
    PlainMp4OnName(x);
    calc {
      ExtensionPass(s1, rules);
      ExtensionPass(GuardedStep(s1, BotMp4), [PlainMp4]);
      ExtensionPass(s1, [PlainMp4]);
      ExtensionPass(GuardedStep(s1, PlainMp4), []);
    }
  }

  /** The extension pass on `x.mp4`, where `x` holds none of `?`, `4`,
      `k`, `z`: only the plain `.mp4` rule fires. */
  lemma ExtensionPassPlainMp4(x: string)
    requires Unmarked(x)
    ensures ExtensionPass(x + ".mp4", ExtensionRules) == x + "?ext=mp4"
  {
    var s1 := x + ".mp4";
    var s2 := x + "?ext=mp4";
    calc {
      ExtensionPass(s1, ExtensionRules);
      == { ExtensionPassSplit(s1, ExtensionRules, 2); }
      ExtensionPass(ExtensionPass(s1, ExtensionRules[..2]), ExtensionRules[2..]);
      == { Mp4RulesOnName(x); }
      ExtensionPass(s2, ExtensionRules[2..]);
      == { assert 'k' !in s2 && 'z' !in s2; MkvZipInert(s2); }
      s2;
    }
  }

  /** The server step on a server-5 link: the first rule fires at index 0. */
  lemma ServerPassServer5(rest: string)
    ensures ServerPass(ServerRules[0].from + rest, ServerRules) == ServerRules[0].to + rest
  {
    var url := ServerRules[0].from + rest;
    IncludesPrefix(url, ServerRules[0].from);
    ServerPassFirstMatch(url, ServerRules, 0);
    assert IndexOf(url, ServerRules[0].from) == Some(0);
    assert url[|ServerRules[0].from|..] == rest;
  }

  lemma UnmarkedConcat(a: string, b: string)
    requires Unmarked(a) && Unmarked(b)
    ensures Unmarked(a + b)
  {
  }

  /** The server pass on a server-5 link to `name.mp4`. */
  lemma ServerPassServer5Mp4(name: string)
    ensures ServerPass(ServerRules[0].from + name + ".mp4", ServerRules) == ServerRules[0].to + name + ".mp4"
  {
    assert ServerRules[0].from + name + ".mp4" == ServerRules[0].from + (name + ".mp4");
    ServerPassServer5(name + ".mp4");
    assert ServerRules[0].to + (name + ".mp4") == ServerRules[0].to + name + ".mp4";
  }

  /** A server-5 link to `name.mp4` gets the backend host and the plain
      `.mp4` rewrite, and no other rule fires; for example
      `https://google.com/server5/1:/movie.mp4` becomes
      `https://drive2.cscloud12.online/server5/movie?ext=mp4`. */
  lemma ReplaceUrlServer5Mp4(name: string)
    requires Unmarked(name)
    ensures ReplaceUrl(ServerRules[0].from + name + ".mp4") == ServerRules[0].to + name + "?ext=mp4"
  {
    var x := ServerRules[0].to + name;
    ServerPassServer5Mp4(name);
    Server5HostChars();
    UnmarkedConcat(ServerRules[0].to, name);
    ExtensionPassPlainMp4(x);
  }

  /** Every extension source starts with `.`, and a `?` inside it is
      followed by something other than `e`. */
  predicate SourceShape(f: string) {
    && |f| > 0 && f[0] == '.'
    && forall i :: 0 < i < |f| && f[i] == '?' ==> i + 1 < |f| && f[i + 1] != 'e'
  }

  /** Every extension target starts with `?e` and holds no `.`. */
  predicate TargetShape(t: string) {
    |t| >= 2 && t[0] == '?' && t[1] == 'e' && '.' !in t
  }

  ghost predicate WellShaped(rules: seq<Rule>) {
    forall k :: 0 <= k < |rules| ==> SourceShape(rules[k].from) && TargetShape(rules[k].to)
  }

  /** A source occurrence in `x + t + y`, with `t` a target, lies wholly
      before or wholly after `t`: a `.` cannot fall inside `t`, and `t`'s
      leading `?e` cannot continue a source. */
  lemma SourceAvoidsTarget(x: string, t: string, y: string, f: string, j: nat)
    requires OccursAt(x + t + y, f, j)
    ensures SourceShape(f) && TargetShape(t) ==> j + |f| <= |x| || |x| + |t| <= j
  {
    var r := x + t + y;
    assert r[j..j + |f|] == f;
    if |x| <= j < |x| + |t| && |f| > 0 {
      assert t[j - |x|] == r[j] == f[0];
    } else if j < |x| < j + |f| && |t| > 1 {
      assert f[|x| - j] == r[|x|] == t[0];
      if |x| + 1 < j + |f| {
        assert f[|x| - j + 1] == r[|x| + 1] == t[1];
      }
    }
  }

  /** A target occurrence in `x + f + y`, with `f` a source, lies wholly
      before or wholly after `f`, for the same reasons. */
  lemma TargetAvoidsSource(x: string, f: string, y: string, t: string, j: nat)
    requires OccursAt(x + f + y, t, j)
    ensures SourceShape(f) && TargetShape(t) ==> j + |t| <= |x| || |x| + |f| <= j
  {
    var r := x + f + y;
    assert r[j..j + |t|] == t;
    if j <= |x| < j + |t| && |f| > 0 {
      assert t[|x| - j] == r[|x|] == f[0];
    } else if |x| < j < |x| + |f| && |t| > 1 {
      assert f[j - |x|] == r[j] == t[0];
      if j + 1 < |x| + |f| {
        assert f[j - |x| + 1] == r[j + 1] == t[1];
      }
    }
  }

  /** The text a firing step works on and the text it leaves. */
  lemma StepSplit(url: string, rule: Rule) returns (x: string, y: string)
    requires Fires(url, rule)
    ensures url == x + rule.from + y
    ensures GuardedStep(url, rule) == x + rule.to + y
  {
    var i := IndexOf(url, rule.from).value;
    x, y := url[..i], url[i + |rule.from|..];
    assert url == x + url[i..i + |rule.from|] + y;
  }

  /** A step never creates an occurrence of a source. */
  lemma StepCreatesNoSource(url: string, rule: Rule, f: string)
    requires SourceShape(f) && TargetShape(rule.to)
    ensures Includes(GuardedStep(url, rule), f) ==> Includes(url, f)
  {
    if Fires(url, rule) && Includes(GuardedStep(url, rule), f) {
      var x, y := StepSplit(url, rule);
      var j := IndexOf(x + rule.to + y, f).value;
      SourceAvoidsTarget(x, rule.to, y, f, j);
      OccurrenceOutside(x, rule.to, y, rule.from, f, j);
    }
  }

  /** A step never destroys an occurrence of a target. */
  lemma StepKeepsTarget(url: string, rule: Rule, t: string)
    requires SourceShape(rule.from) && TargetShape(t)
    ensures Includes(url, t) ==> Includes(GuardedStep(url, rule), t)
  {
    if Fires(url, rule) && Includes(url, t) {
      var x, y := StepSplit(url, rule);
      var j := IndexOf(x + rule.from + y, t).value;
      TargetAvoidsSource(x, rule.from, y, t, j);
      OccurrenceOutside(x, rule.from, y, rule.to, t, j);
    }
  }

  /** A rule that cannot fire stays unable to fire through any pass over
      well-shaped rules. */
  lemma {:induction false} PassKeepsInert(url: string, rules: seq<Rule>, rule: Rule)
    requires WellShaped(rules) && SourceShape(rule.from) && TargetShape(rule.to)
    ensures !Fires(url, rule) ==> !Fires(ExtensionPass(url, rules), rule)
    decreases rules
  {
    if rules != [] {
      var next := GuardedStep(url, rules[0]);
      StepCreatesNoSource(url, rules[0], rule.from);
      StepKeepsTarget(url, rules[0], rule.to);
      assert WellShaped(rules[1..]) by {
        forall k | 0 <= k < |rules| - 1
          ensures SourceShape(rules[1..][k].from) && TargetShape(rules[1..][k].to)
        {
          assert rules[1..][k] == rules[k + 1];
        }
      }
      PassKeepsInert(next, rules[1..], rule);
    }
  }

  /** After a pass over well-shaped rules, none of them can fire. */
  lemma {:induction false} PassLeavesInert(url: string, rules: seq<Rule>)
    requires WellShaped(rules)
    ensures forall k :: 0 <= k < |rules| ==> !Fires(ExtensionPass(url, rules), rules[k])
    decreases rules
  {
    if rules != [] {
      var next := GuardedStep(url, rules[0]);
      var r := ExtensionPass(url, rules);
      assert r == ExtensionPass(next, rules[1..]);
      assert WellShaped(rules[1..]) by {
        forall k | 0 <= k < |rules| - 1
          ensures SourceShape(rules[1..][k].from) && TargetShape(rules[1..][k].to)
        {
          assert rules[1..][k] == rules[k + 1];
        }
      }
      PassLeavesInert(next, rules[1..]);
      assert !Fires(next, rules[0]);
      PassKeepsInert(next, rules[1..], rules[0]);
      forall k | 1 <= k < |rules|
        ensures !Fires(r, rules[k])
      {
        assert rules[k] == rules[1..][k - 1];
      }
    }
  }

  /** A pass over rules none of which can fire changes nothing. */
  lemma {:induction false} PassOnInert(url: string, rules: seq<Rule>)
    requires forall k :: 0 <= k < |rules| ==> !Fires(url, rules[k])
    ensures ExtensionPass(url, rules) == url
    decreases rules
  {
    if rules != [] {
      assert GuardedStep(url, rules[0]) == url;
      assert forall k :: 0 <= k < |rules| - 1 ==> rules[1..][k] == rules[k + 1];
      PassOnInert(url, rules[1..]);
    }
  }

  lemma PlainSourceShaped(ext: string)
    requires '?' !in ext
    ensures SourceShape("." + ext)
  {
    assert forall i :: 0 < i < |ext| + 1 ==> ("." + ext)[i] == ext[i - 1];
  }

  lemma BotSourceShaped(ext: string, query: string)
    requires '?' !in ext && '?' !in query && |query| > 0 && query[0] != 'e'
    ensures SourceShape("." + ext + "?" + query)
  {
    var f := "." + ext + "?" + query;
    assert forall i :: 0 < i <= |ext| ==> f[i] == ext[i - 1];
    assert forall i :: |ext| + 1 < i < |f| ==> f[i] == query[i - |ext| - 2];
  }

  lemma TargetShaped(rest: string)
    requires '.' !in rest
    ensures TargetShape("?e" + rest)
  {
    assert forall i :: 2 <= i < |rest| + 2 ==> ("?e" + rest)[i] == rest[i - 2];
  }

  lemma BotRulesShaped()
    ensures SourceShape(BotMp4.from) && TargetShape(BotMp4.to)
    ensures SourceShape(BotMkv.from) && TargetShape(BotMkv.to)
  {
    assert '?' !in BotQuery && '.' !in BotQuery;
    assert BotMp4.from == "." + "mp4" + "?" + BotQuery;
    BotSourceShaped("mp4", BotQuery);
    assert BotMp4.to == "?e" + ("xt=mp4&" + BotQuery);
    TargetShaped("xt=mp4&" + BotQuery);
    assert BotMkv.from == "." + "mkv" + "?" + BotQuery;
    BotSourceShaped("mkv", BotQuery);
    assert BotMkv.to == "?e" + ("xt=mkv&" + BotQuery);
    TargetShaped("xt=mkv&" + BotQuery);
  }

  lemma PlainRulesShaped()
    ensures SourceShape(PlainMp4.from) && TargetShape(PlainMp4.to)
    ensures SourceShape(PlainMkv.from) && TargetShape(PlainMkv.to)
    ensures SourceShape(PlainZip.from) && TargetShape(PlainZip.to)
  {
    assert PlainMp4.from == "." + "mp4" && PlainMp4.to == "?e" + "xt=mp4";
    PlainSourceShaped("mp4");
    TargetShaped("xt=mp4");
    assert PlainMkv.from == "." + "mkv" && PlainMkv.to == "?e" + "xt=mkv";
    PlainSourceShaped("mkv");
    TargetShaped("xt=mkv");
    assert PlainZip.from == "." + "zip" && PlainZip.to == "?e" + "xt=zip";
    PlainSourceShaped("zip");
    TargetShaped("xt=zip");
  }

  /** The extension table is well shaped: each source is `.` and an
      extension, optionally followed by the `?bot=` query; each target
      starts with `?ext` and holds no `.`. */
  lemma ExtensionRulesShaped()
    ensures WellShaped(ExtensionRules)
  {
    BotRulesShaped();
    PlainRulesShaped();
  }

  /** The extension pass is idempotent: after one pass no pair can fire,
      so a second pass changes nothing. */
  lemma ExtensionPassIdempotent(url: string)
    ensures ExtensionPass(ExtensionPass(url, ExtensionRules), ExtensionRules) == ExtensionPass(url, ExtensionRules)
  {
    ExtensionRulesShaped();
    PassLeavesInert(url, ExtensionRules);
    PassOnInert(ExtensionPass(url, ExtensionRules), ExtensionRules);
  }
}
