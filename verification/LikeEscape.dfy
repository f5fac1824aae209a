/** Escaping a search term for LIKE, against the predicate's meaning (section
    8.5, like predicate, of ISO/IEC 9075-2) with escape character `\`. */
module LikeEscape {
  import opened Prelude

  /** `s.replace(c, with)` for a one-character `c`. */
  function Replace(s: string, c: char, with: string): string {
    if s == "" then ""
    else (if s[0] == c then with else [s[0]]) + Replace(s[1..], c, with)
  }

  /** `_escape_like`: three replacements, one after the other. */
  function EscapeLike(s: string): string {
    Replace(Replace(Replace(s, '\\', "\\\\"), '%', "\\%"), '_', "\\_")
  }

  predicate IsSpecial(c: char) { c == '\\' || c == '%' || c == '_' }

  /** The escape as it is meant: one pass, a backslash before each special character. */
  function Escaped(s: string): string {
    if s == "" then ""
    else (if IsSpecial(s[0]) then ['\\', s[0]] else [s[0]]) + Escaped(s[1..])
  }

  lemma {:induction false} ReplaceConcat(a: string, b: string, c: char, with: string)
    ensures Replace(a + b, c, with) == Replace(a, c, with) + Replace(b, c, with)
  {
    if a == "" {
      assert a + b == b;
    } else {
      ReplaceConcat(a[1..], b, c, with);
      assert (a + b)[0] == a[0] && (a + b)[1..] == a[1..] + b;
      Regroup(if a[0] == c then with else [a[0]], Replace(a[1..], c, with), Replace(b, c, with));
    }
  }

  lemma ReplaceOne(x: char, c: char, with: string)
    ensures Replace([x], c, with) == if x == c then with else [x]
  {
  }

  lemma ReplaceTwo(x: char, y: char, c: char, with: string)
    ensures Replace([x, y], c, with) == (if x == c then with else [x]) + (if y == c then with else [y])
  {
    assert [x, y] == [x] + [y];
    ReplaceConcat([x], [y], c, with);
  }

  /** The three replacements do not disturb each other's output: together they
      are the one-pass escape. */
  lemma {:induction false} EscapeIsOnePass(s: string)
    ensures EscapeLike(s) == Escaped(s)
  {
    if s != "" {
      var head, tail := [s[0]], s[1..];
      assert s == head + tail;
      EscapeIsOnePass(tail);
      ReplaceConcat(head, tail, '\\', "\\\\");
      var h1, t1 := Replace(head, '\\', "\\\\"), Replace(tail, '\\', "\\\\");
      ReplaceConcat(h1, t1, '%', "\\%");
      var h2, t2 := Replace(h1, '%', "\\%"), Replace(t1, '%', "\\%");
      ReplaceConcat(h2, t2, '_', "\\_");
      EscapeOne(s[0]);
      assert EscapeLike(s) == EscapeLike(head) + EscapeLike(tail);
    }
  }

  lemma EscapeOne(c: char)
    ensures EscapeLike([c]) == if IsSpecial(c) then ['\\', c] else [c]
  {
    ReplaceOne(c, '\\', "\\\\");
    if c == '\\' {
      ReplaceTwo('\\', '\\', '%', "\\%");
      ReplaceTwo('\\', '\\', '_', "\\_");
    } else {
      ReplaceOne(c, '%', "\\%");
      if c == '%' { ReplaceTwo('\\', '%', '_', "\\_"); } else { ReplaceOne(c, '_', "\\_"); }
    }
  }

  /** Does the pattern match the whole of `s`? Characters are compared after
      `fold`: the identity for LIKE, the lower-casing of ILIKE otherwise. */
  predicate Like(pattern: string, s: string, fold: char -> char)
    decreases |pattern| + |s|
  {
    if pattern == "" then s == ""
    else if pattern[0] == '\\' then
      && |pattern| >= 2 && s != "" && fold(pattern[1]) == fold(s[0])
      && Like(pattern[2..], s[1..], fold)
    else if pattern[0] == '%' then
      Like(pattern[1..], s, fold) || (s != "" && Like(pattern, s[1..], fold))
    else
      && s != "" && (pattern[0] == '_' || fold(pattern[0]) == fold(s[0]))
      && Like(pattern[1..], s[1..], fold)
  }

  /** The standard's syntax rule: the escape character only before itself, `%` or `_`. */
  predicate WellFormed(pattern: string) {
    if pattern == "" then true
    else if pattern[0] == '\\' then |pattern| >= 2 && IsSpecial(pattern[1]) && WellFormed(pattern[2..])
    else WellFormed(pattern[1..])
  }

  /** `k` and `s` are the same text up to `fold`. */
  ghost predicate SameText(k: string, s: string, fold: char -> char) {
    |k| == |s| && forall i :: 0 <= i < |k| ==> fold(k[i]) == fold(s[i])
  }

  /** `k` occurs in `s`, up to `fold`. */
  ghost predicate Contains(s: string, k: string, fold: char -> char) {
    exists i :: OccursAt(s, k, i, fold)
  }

  ghost predicate OccursAt(s: string, k: string, i: int, fold: char -> char) {
    0 <= i <= |s| && |k| <= |s| - i && SameText(k, s[i..i + |k|], fold)
  }

  /** The pattern an escaped term goes into, `f"%{escaped}%"`. */
  function ContainsPattern(keyword: string): string { "%" + EscapeLike(keyword) + "%" }

  /** How an escaped term and what follows it begin. */
  lemma EscapedHead(k: string, rest: string)
    requires k != ""
    ensures var p, q := Escaped(k) + rest, Escaped(k[1..]) + rest;
            if IsSpecial(k[0]) then |p| >= 2 && p[0] == '\\' && p[1] == k[0] && p[2..] == q
            else |p| >= 1 && p[0] == k[0] && p[1..] == q
  {
    var head: string := if IsSpecial(k[0]) then ['\\', k[0]] else [k[0]];
    assert Escaped(k) == head + Escaped(k[1..]);
    Regroup(head, Escaped(k[1..]), rest);
  }

  lemma Regroup(a: string, b: string, c: string)
    ensures (a + b) + c == a + (b + c)
    ensures (a + (b + c))[|a|..] == b + c
    ensures forall i :: 0 <= i < |a| ==> (a + (b + c))[i] == a[i]
  {
  }

  lemma {:induction false} EscapedWellFormed(k: string, rest: string)
    requires WellFormed(rest)
    ensures WellFormed(Escaped(k) + rest)
  {
    if k == "" {
      assert Escaped(k) + rest == rest;
    } else {
      EscapedWellFormed(k[1..], rest);
      EscapedHead(k, rest);
    }
  }

  /** Whatever the term, the pattern built from it obeys the standard's syntax. */
  lemma PatternIsWellFormed(keyword: string)
    ensures WellFormed(ContainsPattern(keyword))
  {
    EscapeIsOnePass(keyword);
    var rest: string := "%";
    assert rest[1..] == "";
    EscapedWellFormed(keyword, rest);
    assert ContainsPattern(keyword)[1..] == Escaped(keyword) + rest;
  }

  /** `s` starts with `k`, up to `fold`. */
  ghost predicate StartsWith(s: string, k: string, fold: char -> char) {
    |k| <= |s| && SameText(k, s[..|k|], fold)
  }

  /** How an escaped term consumes its first character. */
  lemma EscapedConsumesOne(k: string, rest: string, s: string, fold: char -> char)
    requires k != ""
    ensures Like(Escaped(k) + rest, s, fold) <==>
              s != "" && fold(k[0]) == fold(s[0]) && Like(Escaped(k[1..]) + rest, s[1..], fold)
  {
    EscapedHead(k, rest);
  }

  lemma StartsWithCons(k: string, s: string, fold: char -> char)
    requires k != "" && s != ""
    ensures StartsWith(s, k, fold) <==> fold(k[0]) == fold(s[0]) && StartsWith(s[1..], k[1..], fold)
  {
    if |k| <= |s| { SameTextCons(k, s, fold); }
  }

  /** An escaped term consumes exactly its own text. */
  lemma {:induction false} EscapedConsumesItself(k: string, rest: string, s: string, fold: char -> char)
    ensures Like(Escaped(k) + rest, s, fold) <==> StartsWith(s, k, fold) && Like(rest, s[|k|..], fold)
  {
    if k == "" {
      assert Escaped(k) + rest == rest && s[0..] == s;
    } else {
      EscapedConsumesOne(k, rest, s, fold);
      if s != "" {
        EscapedConsumesItself(k[1..], rest, s[1..], fold);
        StartsWithCons(k, s, fold);
        if |k| <= |s| { assert s[1..][|k[1..]|..] == s[|k|..]; }
      }
    }
  }

  lemma SameTextCons(k: string, s: string, fold: char -> char)
    requires k != "" && s != "" && |k| <= |s|
    ensures SameText(k, s[..|k|], fold) <==>
              fold(k[0]) == fold(s[0]) && SameText(k[1..], s[1..][..|k| - 1], fold)
  {
    if fold(k[0]) == fold(s[0]) && SameText(k[1..], s[1..][..|k| - 1], fold) {
      forall i | 0 <= i < |k| ensures fold(k[i]) == fold(s[..|k|][i]) {
        if i > 0 { assert k[1..][i - 1] == k[i] && s[1..][..|k| - 1][i - 1] == s[i]; }
      }
    }
    if SameText(k, s[..|k|], fold) {
      forall i | 0 <= i < |k| - 1 ensures fold(k[1..][i]) == fold(s[1..][..|k| - 1][i]) {
        assert k[i + 1] == k[1..][i] && s[..|k|][i + 1] == s[1..][..|k| - 1][i];
      }
    }
  }

  lemma {:induction false} TrailingPercentTakesAll(s: string, fold: char -> char)
    ensures Like("%", s, fold)
  {
    var p := "%";
    assert p[1..] == "";
    if s != "" { TrailingPercentTakesAll(s[1..], fold); }
  }

  lemma {:induction false} LeadingPercent(k: string, s: string, fold: char -> char)
    ensures Like("%" + Escaped(k) + "%", s, fold) <==> Contains(s, k, fold)
  {
    var p := "%" + Escaped(k) + "%";
    assert p[1..] == Escaped(k) + "%";
    EscapedConsumesItself(k, "%", s, fold);
    if |k| <= |s| {
      TrailingPercentTakesAll(s[|k|..], fold);
      assert s[0..|k|] == s[..|k|];
    }
    assert Like(p[1..], s, fold) <==> OccursAt(s, k, 0, fold);
    if s != "" {
      LeadingPercent(k, s[1..], fold);
      ContainsInTail(s, k, fold);
    }
  }

  lemma ContainsInTail(s: string, k: string, fold: char -> char)
    requires s != ""
    ensures Contains(s, k, fold) <==> OccursAt(s, k, 0, fold) || Contains(s[1..], k, fold)
  {
    if Contains(s, k, fold) && !OccursAt(s, k, 0, fold) {
      var i :| OccursAt(s, k, i, fold);
      assert s[1..][i - 1..i - 1 + |k|] == s[i..i + |k|];
      assert OccursAt(s[1..], k, i - 1, fold);
    }
    if Contains(s[1..], k, fold) {
      var i :| OccursAt(s[1..], k, i, fold);
      assert s[i + 1..i + 1 + |k|] == s[1..][i..i + |k|];
      assert OccursAt(s, k, i + 1, fold);
    }
  }

  /** Escaping is exact: the search matches a text exactly when the term occurs
      in it, whatever special characters either contains. */
  lemma SearchMeansContains(keyword: string, s: string, fold: char -> char)
    ensures Like(ContainsPattern(keyword), s, fold) <==> Contains(s, keyword, fold)
  {
    EscapeIsOnePass(keyword);
    LeadingPercent(keyword, s, fold);
  }

  /** Without the wildcards an escaped term matches only itself; so no two
      terms share an escaped form. */
  lemma EscapeInjective(j: string, k: string)
    ensures EscapeLike(j) == EscapeLike(k) <==> j == k
  {
    var id := (c: char) => c;
    EscapeIsOnePass(j);
    EscapeIsOnePass(k);
    if EscapeLike(j) == EscapeLike(k) {
      EscapedConsumesItself(j, "", j, id);
      EscapedConsumesItself(k, "", j, id);
      assert Escaped(j) + "" == Escaped(j) && Escaped(k) + "" == Escaped(k);
      assert j[..|j|] == j;
    }
  }

  // ---------------------------------------------------------------------------
  // The searches
  // ---------------------------------------------------------------------------

  /** A row of the searched tables: two text columns, either of which may be null. */
  datatype Row = Row(tenantId: int, first: Option<string>, second: Option<string>, status: string)

  /** `column.ilike(pattern, escape)`: a null column never matches. */
  predicate ILike(column: Option<string>, pattern: string, fold: char -> char) {
    column.Some? && Like(pattern, column.value, fold)
  }

  /** The where clause of `query_customers` (name, email) and of `query_tickets`
      (subject, description, and the optional status). */
  predicate Selected(r: Row, tenantId: int, keyword: Option<string>, status: Option<string>, fold: char -> char) {
    && r.tenantId == tenantId
    && (status.Some? && status.value != "" ==> r.status == status.value)
    && (keyword.Some? && keyword.value != "" ==>
          ILike(r.first, ContainsPattern(keyword.value), fold) || ILike(r.second, ContainsPattern(keyword.value), fold))
  }

  ghost predicate Mentions(column: Option<string>, keyword: string, fold: char -> char) {
    column.Some? && Contains(column.value, keyword, fold)
  }

  /** The searches return exactly the tenant's rows (of the asked status) in
      which a searched column contains the keyword as plain text; an absent or
      empty keyword or status asks for nothing. */
  lemma SearchSelectsExactly(r: Row, tenantId: int, keyword: Option<string>, status: Option<string>, fold: char -> char)
    ensures Selected(r, tenantId, keyword, status, fold) <==>
              && r.tenantId == tenantId
              && (status.None? || status.value == "" || r.status == status.value)
              && (keyword.None? || keyword.value == ""
                  || Mentions(r.first, keyword.value, fold) || Mentions(r.second, keyword.value, fold))
  {
    if keyword.Some? {
      if r.first.Some? { SearchMeansContains(keyword.value, r.first.value, fold); }
      if r.second.Some? { SearchMeansContains(keyword.value, r.second.value, fold); }
    }
  }
}
