/** What the research agent's proposals must look like to be kept, and how that
    filter compares with the gates of the implementer. */
module ResearchFilter {
  import opened Prelude

  datatype Proposal = Proposal(
    title: string,
    priority: Option<string>,
    kind: Option<string>,
    targets: seq<string>,
    description: string,
    acceptance: string)

  const PRIORITIES: set<string> := {"low", "medium", "high"}
  const KINDS: set<string> := {"bugfix", "test", "refactor", "docs", "security"}
  const EXTENSIONS: seq<string> :=
    [".py", ".pyi", ".ini", ".cfg", ".toml", ".mako", ".md", ".txt", ".json", ".yaml", ".yml"]
  const SIGNALS: seq<string> :=
    ["returns ", "equal", "assert", "pytest", "method ", "function ", "class ", "test_", "def ", "raises", "== ", "contains "]
  const MIN_TEXT := 40

  /** The blanks `str.strip` removes. */
  predicate IsBlank(c: char) {
    || '\U{9}' <= c <= '\U{d}' || '\U{1c}' <= c <= ' ' || c == '\U{85}' || c == '\U{a0}' || c == '\U{1680}'
    || '\U{2000}' <= c <= '\U{200a}' || c == '\U{2028}' || c == '\U{2029}' || c == '\U{202f}' || c == '\U{205f}'
    || c == '\U{3000}'
  }

  function StripLeft(s: string): string {
    if s != "" && IsBlank(s[0]) then StripLeft(s[1..]) else s
  }

  function StripRight(s: string): (r: string)
    ensures r <= s
  {
    if s != "" && IsBlank(s[|s| - 1]) then StripRight(s[..|s| - 1]) else s
  }

  /** `s.strip()`. */
  function Strip(s: string): string { StripRight(StripLeft(s)) }

  /** `s.split(c, 1)[0]`. */
  function Before(s: string, c: char): (r: string)
    ensures r <= s
  {
    if s == "" || s[0] == c then "" else [s[0]] + Before(s[1..], c)
  }

  predicate EndsWith(s: string, suffix: string) { |suffix| <= |s| && s[|s| - |suffix|..] == suffix }

  predicate Mentions(s: string, word: string) {
    exists i :: 0 <= i <= |s| - |word| && s[i..][..|word|] == word
  }

  /** `s.lower()` on ASCII letters: no other character lowers into one of the signals. */
  function Lower(s: string): string {
    seq(|s|, i requires 0 <= i < |s| => if 'A' <= s[i] <= 'Z' then (s[i] as int + 32) as char else s[i])
  }

  /** Under `IMPLEMENT_ALLOWED_PREFIXES`. */
  predicate UnderAllowed(target: string) { "src/" <= target || "tests/" <= target }

  /** The filter's test of a target: it looks at the part before a colon, without its outer blanks. */
  predicate IsTarget(target: string) {
    && Strip(target) != ""
    && var path := Strip(Before(target, ':'));
       UnderAllowed(path) && (path[|path| - 1] == '/' || exists x :: x in EXTENSIONS && EndsWith(path, x))
  }

  /** `_research_task_is_implementable`. */
  predicate Kept(p: Proposal) {
    && Strip(p.title) != ""
    && p.priority.Some? && p.priority.value in PRIORITIES
    && p.kind.Some? && p.kind.value in KINDS
    && p.targets != [] && (forall t :: t in p.targets ==> IsTarget(t))
    && |Strip(p.description)| >= MIN_TEXT && |Strip(p.acceptance)| >= MIN_TEXT
    && exists w :: w in SIGNALS && Mentions(Lower(Strip(p.acceptance)), w)
  }

  /** The implementer's gates that read the proposal: not high priority, and
      every target, as written, under an allowed directory. */
  predicate WithinBounds(p: Proposal) {
    && p.priority != Some("high")
    && p.targets != [] && forall t :: t in p.targets ==> UnderAllowed(t)
  }

  lemma TargetAllowedExactlyWhen(target: string)
    requires IsTarget(target)
    ensures target != "" && (UnderAllowed(target) <==> !IsBlank(target[0]))
  {
    var head := Before(target, ':');
    assert StripLeft("") == "" && head != "";
    if !IsBlank(target[0]) {
      assert head[0] == target[0] && StripLeft(head) == head;
      assert Strip(head) <= head <= target;
    }
  }

  /** The filter mirrors the implementer's gates except for two things: it keeps
      high priority, and it strips a target's leading blanks, which the gates
      do not. */
  lemma KeptIsWithinBoundsExactlyWhen(p: Proposal)
    requires Kept(p)
    ensures WithinBounds(p) <==>
              p.priority != Some("high") && forall t :: t in p.targets ==> t != "" && !IsBlank(t[0])
  {
    forall t | t in p.targets ensures t != "" && (UnderAllowed(t) <==> !IsBlank(t[0])) {
      TargetAllowedExactlyWhen(t);
    }
  }

  /** A proposal for one target file that satisfies everything else the filter asks. */
  function Sample(priority: string, target: string): Proposal {
    Proposal(TITLE, Some(priority), Some("test"), [target], DESCRIPTION, ACCEPTANCE)
  }

  const PATH := "src/" + "app" + ".py"
  const TITLE := "Cover the parser"
  const DESCRIPTION := "Add a " + "test_parse_empty covering the empty input of " + "parse."
  const ACCEPTANCE := "pytest " + "passes and test_parse_empty asserts an empty " + "list."

  lemma Unstripped(s: string)
    requires s != "" && !IsBlank(s[0]) && !IsBlank(s[|s| - 1])
    ensures Strip(s) == s
  {
  }

  lemma AcceptanceIsCheckable()
    ensures exists w :: w in SIGNALS && Mentions(Lower(ACCEPTANCE), w)
  {
    var lower := Lower(ACCEPTANCE);
    assert ACCEPTANCE[..6] == "pytest";
    assert forall i :: 0 <= i < 6 ==> lower[i] == ACCEPTANCE[..6][i];
    assert lower[0..][..6] == "pytest";
    assert SIGNALS[3] == "pytest" && Mentions(lower, SIGNALS[3]) && SIGNALS[3] in SIGNALS;
  }

  lemma SampleTargets(target: string)
    requires target in {PATH, " " + PATH}
    ensures IsTarget(target)
  {
    NoColon(target);
    Unstripped(PATH);
    LeadingBlank(PATH);
    assert EXTENSIONS[0] in EXTENSIONS && EndsWith(PATH, ".py");
  }

  lemma SampleIsKept(priority: string, target: string)
    requires priority in PRIORITIES && target in {PATH, " " + PATH}
    ensures Kept(Sample(priority, target))
  {
    Unstripped(TITLE);
    Unstripped(DESCRIPTION);
    Unstripped(ACCEPTANCE);
    AcceptanceIsCheckable();
    SampleTargets(target);
  }

  lemma LeadingBlank(s: string)
    ensures Strip(" " + s) == Strip(s)
  {
    assert (" " + s)[1..] == s;
    assert StripLeft(" " + s) == StripLeft(s);
  }

  lemma {:induction false} NoColon(s: string)
    requires ':' !in s
    ensures Before(s, ':') == s
  {
    if s != "" { NoColon(s[1..]); }
  }

  /** Both happen: a high priority, and a leading blank, pass the filter and fail the gates. */
  lemma KeptButOutOfBounds()
    ensures Kept(Sample("high", PATH)) && !WithinBounds(Sample("high", PATH))
    ensures Kept(Sample("low", " " + PATH)) && !WithinBounds(Sample("low", " " + PATH))
  {
    SampleIsKept("high", PATH);
    SampleIsKept("low", " " + PATH);
    var p := Sample("low", " " + PATH);
    assert p.targets[0] in p.targets;
    KeptIsWithinBoundsExactlyWhen(p);
  }

  // ---------------------------------------------------------------------------
  // What the filter refuses
  // ---------------------------------------------------------------------------

  ghost predicate Blank(s: string) { forall i :: 0 <= i < |s| ==> IsBlank(s[i]) }

  lemma {:induction false} StripLeftCuts(s: string) returns (a: nat)
    ensures a <= |s| && StripLeft(s) == s[a..] && Blank(s[..a]) && (a < |s| ==> !IsBlank(s[a]))
  {
    if s != "" && IsBlank(s[0]) {
      a := StripLeftCuts(s[1..]);
      a := a + 1;
      assert s[..a] == [s[0]] + s[1..][..a - 1];
    } else {
      a := 0;
    }
  }

  lemma {:induction false} StripRightCuts(s: string) returns (b: nat)
    ensures b <= |s| && StripRight(s) == s[..b] && Blank(s[b..]) && (b > 0 ==> !IsBlank(s[b - 1]))
  {
    if s != "" && IsBlank(s[|s| - 1]) {
      b := StripRightCuts(s[..|s| - 1]);
      assert s[b..] == s[..|s| - 1][b..] + [s[|s| - 1]];
      assert s[..|s| - 1][..b] == s[..b];
    } else {
      b := |s|;
    }
  }

  /** Stripping cuts a blank beginning and a blank end, and leaves no blank at either side. */
  lemma StripCuts(s: string) returns (a: nat, b: nat)
    ensures a <= b <= |s| && Strip(s) == s[a..b]
    ensures (forall i :: 0 <= i < a || b <= i < |s| ==> IsBlank(s[i]))
    ensures a < b ==> !IsBlank(s[a]) && !IsBlank(s[b - 1])
  {
    a := StripLeftCuts(s);
    var n := StripRightCuts(s[a..]);
    b := a + n;
    assert forall i :: 0 <= i < a ==> s[..a][i] == s[i];
    assert forall i :: b <= i < |s| ==> s[a..][n..][i - b] == s[i];
  }

  /** From its first to its last character that is no blank the text has at least `n`. */
  ghost predicate Spans(s: string, n: int) {
    exists i, j :: 0 <= i <= j < |s| && !IsBlank(s[i]) && !IsBlank(s[j]) && j - i + 1 >= n
  }

  lemma StripSpans(s: string, n: int)
    requires n > 0
    ensures |Strip(s)| >= n <==> Spans(s, n)
  {
    var a, b := StripCuts(s);
    if |Strip(s)| >= n {
      assert !IsBlank(s[a]) && !IsBlank(s[b - 1]) && (b - 1) - a + 1 >= n;
    }
  }

  lemma {:induction false} BeforeCuts(s: string, c: char) returns (k: nat)
    ensures k <= |s| && Before(s, c) == s[..k] && c !in s[..k] && (k < |s| ==> s[k] == c)
  {
    if s == "" || s[0] == c {
      k := 0;
    } else {
      k := BeforeCuts(s[1..], c);
      k := k + 1;
      assert s[..k] == [s[0]] + s[1..][..k - 1];
    }
  }

  /** The target reads: blanks, a path, blanks, and perhaps a colon and what follows. */
  ghost predicate Reads(target: string, lead: string, path: string, trail: string, rest: string) {
    && target == lead + path + trail + rest
    && Blank(lead) && Blank(trail) && ':' !in path && (rest != "" ==> rest[0] == ':')
  }

  /** A path under src/ or tests/ that is a directory or a text file. */
  ghost predicate IsSourcePath(path: string) {
    && ("src/" <= path || "tests/" <= path)
    && (EndsWith(path, "/")
        || exists x :: EndsWith(path, x)
             && x in {".py", ".pyi", ".ini", ".cfg", ".toml", ".mako", ".md", ".txt", ".json", ".yaml", ".yml"})
  }

  lemma SourcePathEnds(path: string)
    requires IsSourcePath(path)
    ensures path != "" && !IsBlank(path[0]) && !IsBlank(path[|path| - 1])
  {
    assert path[0] in {'s', 't'};
    if !EndsWith(path, "/") {
      var x :| EndsWith(path, x)
               && x in {".py", ".pyi", ".ini", ".cfg", ".toml", ".mako", ".md", ".txt", ".json", ".yaml", ".yml"};
      ExtensionEnds(x);
      SameEnd(path, x);
    }
  }

  lemma SameEnd(s: string, suffix: string)
    requires EndsWith(s, suffix) && suffix != ""
    ensures s[|s| - 1] == suffix[|suffix| - 1]
  {
    assert s[|s| - 1] == s[|s| - |suffix|..][|suffix| - 1];
  }

  lemma ExtensionEnds(x: string)
    requires x in {".py", ".pyi", ".ini", ".cfg", ".toml", ".mako", ".md", ".txt", ".json", ".yaml", ".yml"}
    ensures |x| > 0 && x[|x| - 1] in {'y', 'i', 'g', 'l', 'o', 'd', 't', 'n'}
  {
  }

  lemma SourcePathMeans(path: string)
    ensures IsSourcePath(path) <==>
              UnderAllowed(path) && (path[|path| - 1] == '/' || exists x :: x in EXTENSIONS && EndsWith(path, x))
  {
    ExtensionsAre();
    assert UnderAllowed(path) ==> (EndsWith(path, "/") <==> path[|path| - 1] == '/');
  }

  lemma ExtensionsAre()
    ensures forall x :: x in EXTENSIONS <==>
              x in {".py", ".pyi", ".ini", ".cfg", ".toml", ".mako", ".md", ".txt", ".json", ".yaml", ".yml"}
  {
  }

  /** The filter takes a target exactly when it reads as blanks, a source path
      without a colon, blanks, and perhaps a colon and what follows. */
  lemma TargetExactlyWhen(target: string)
    ensures IsTarget(target) <==>
              exists lead, path, trail, rest :: Reads(target, lead, path, trail, rest) && IsSourcePath(path)
  {
    if IsTarget(target) {
      var lead, path, trail, rest := ReadTarget(target);
      SourcePathMeans(path);
    }
    if lead, path, trail, rest :| Reads(target, lead, path, trail, rest) && IsSourcePath(path) {
      ReadsStrips(target, lead, path, trail, rest);
      SourcePathMeans(path);
      SourcePathEnds(path);
      StripSpans(target, 1);
      assert target[|lead|] == path[0];
    }
  }

  /** Every target can be read that way, with the path the filter looks at. */
  lemma ReadTarget(target: string) returns (lead: string, path: string, trail: string, rest: string)
    ensures Reads(target, lead, path, trail, rest) && path == Strip(Before(target, ':'))
  {
    var k := BeforeCuts(target, ':');
    var head := target[..k];
    var a, b := StripCuts(head);
    lead, path, trail, rest := head[..a], head[a..b], head[b..], target[k..];
    InThreeParts(head, a, b);
    assert target == head + rest;
  }

  lemma InThreeParts(s: string, a: nat, b: nat)
    requires a <= b <= |s|
    ensures s == s[..a] + s[a..b] + s[b..]
    ensures forall c :: c in s[a..b] ==> c in s
  {
  }

  lemma ReadsStrips(target: string, lead: string, path: string, trail: string, rest: string)
    requires Reads(target, lead, path, trail, rest) && IsSourcePath(path)
    ensures Strip(Before(target, ':')) == path
  {
    var head := lead + path + trail;
    SourcePathEnds(path);
    HeadBefore(target, head, rest);
    var a, b := StripCuts(head);
    var end := |lead| + |path|;
    assert head[|lead|] == path[0] && head[end - 1] == path[|path| - 1];
    assert forall i :: 0 <= i < |lead| ==> head[i] == lead[i] && IsBlank(head[i]);
    assert forall i :: end <= i < |head| ==> head[i] == trail[i - end] && IsBlank(head[i]);
    assert a == |lead| && b == end;
  }

  lemma HeadBefore(target: string, head: string, rest: string)
    requires target == head + rest && ':' !in head && (rest != "" ==> rest[0] == ':')
    ensures Before(target, ':') == head
  {
    var k := BeforeCuts(target, ':');
    assert forall i :: 0 <= i < |head| ==> target[i] == head[i] && head[i] in head && target[i] != ':';
    assert rest != "" ==> target[|head|] == ':';
    assert forall i :: 0 <= i < k ==> target[..k][i] == target[i] && target[i] in target[..k];
    assert k == |head|;
  }

  /** The word stands somewhere in the text, in letters of either case. */
  ghost predicate Says(text: string, word: string) {
    exists i :: 0 <= i <= |text| - |word| && SaysAt(text, word, i)
  }

  ghost predicate SaysAt(text: string, word: string, i: int)
    requires 0 <= i <= |text| - |word|
  {
    forall k :: 0 <= k < |word| ==> IsLetter(text[i + k], word[k])
  }

  /** `c` is the small letter `d` in either case, or `d` itself. */
  ghost predicate IsLetter(c: char, d: char) {
    if 'A' <= c <= 'Z' then c as int + 32 == d as int else c == d
  }

  lemma MentionsMeans(text: string, word: string)
    ensures Mentions(Lower(text), word) <==> Says(text, word)
  {
    var lower := Lower(text);
    forall i | 0 <= i <= |text| - |word| ensures lower[i..][..|word|] == word <==> SaysAt(text, word, i) {
      assert forall k :: 0 <= k < |word| ==> lower[i..][..|word|][k] == lower[i + k];
      if lower[i..][..|word|] == word {
        assert forall k :: 0 <= k < |word| ==> word[k] == lower[i + k];
      }
    }
  }

  /** What a proposal needs to be kept, said without the filter's own helpers. */
  lemma KeptExactlyWhen(p: Proposal)
    ensures Kept(p) <==>
              && Spans(p.title, 1) && Spans(p.description, 40) && Spans(p.acceptance, 40)
              && p.priority in {Some("low"), Some("medium"), Some("high")}
              && p.kind in {Some("bugfix"), Some("test"), Some("refactor"), Some("docs"), Some("security")}
              && |p.targets| > 0
              && (forall t :: t in p.targets ==>
                    exists lead, path, trail, rest :: Reads(t, lead, path, trail, rest) && IsSourcePath(path))
              && exists w :: Says(Strip(p.acceptance), w)
                   && w in {"returns ", "equal", "assert", "pytest", "method ", "function ", "class ", "test_", "def ",
                            "raises", "== ", "contains "}
  {
    StripSpans(p.title, 1);
    StripSpans(p.description, 40);
    StripSpans(p.acceptance, 40);
    forall t | t in p.targets
      ensures IsTarget(t) <==> exists lead, path, trail, rest :: Reads(t, lead, path, trail, rest) && IsSourcePath(path)
    {
      TargetExactlyWhen(t);
    }
    SignalsAre();
    forall w ensures Mentions(Lower(Strip(p.acceptance)), w) <==> Says(Strip(p.acceptance), w) {
      MentionsMeans(Strip(p.acceptance), w);
    }
  }

  lemma SignalsAre()
    ensures forall w :: w in SIGNALS <==>
              w in {"returns ", "equal", "assert", "pytest", "method ", "function ", "class ", "test_", "def ",
                    "raises", "== ", "contains "}
  {
  }
}
