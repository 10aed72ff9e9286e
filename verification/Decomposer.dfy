/** Turning a task text into one subtask per matching agent, in a canonical
    order. Text is one character per byte; only ASCII letters and blanks are
    folded and trimmed. */
module Decomposer {
  import opened Values
  import opened Sequences
  import opened Sorting
  import opened Catalog

  datatype SubtaskSpec = SubtaskSpec(agentId: string, description: string, skills: seq<Skill>, score: nat)

  function LowerChar(c: char): char
  {
    if 'A' <= c <= 'Z' then c + 32 as char else c
  }

  function ToLower(s: string): (r: string)
    ensures |r| == |s|
  {
    seq(|s|, i requires 0 <= i < |s| => LowerChar(s[i]))
  }

  predicate Blank(c: char)
  {
    c == ' ' || 9 as char <= c <= 13 as char
  }

  function TrimSpace(s: string): (r: string)
  {
    if s != "" && Blank(s[0]) then TrimSpace(s[1..])
    else if s != "" && Blank(s[|s| - 1]) then TrimSpace(s[..|s| - 1])
    else s
  }

  predicate OccursAt(text: string, word: string, i: nat)
  {
    i + |word| <= |text| && text[i..i + |word|] == word
  }

  predicate Contains(text: string, word: string)
  {
    exists i :: 0 <= i <= |text| && OccursAt(text, word, i)
  }

  predicate KeywordMatch(lowerText: string, keyword: string)
  {
    var word := ToLower(TrimSpace(keyword));
    |word| >= 2 && Contains(lowerText, word)
  }

  predicate SkillMatches(lower: string, s: Skill)
  {
    KeywordMatch(lower, s.name) || KeywordMatch(lower, s.tool)
  }

  function Matched(lower: string, skills: seq<Skill>): seq<Skill>
  {
    if skills == [] then []
    else
      var n := |skills| - 1;
      Matched(lower, skills[..n]) + (if SkillMatches(lower, skills[n]) then [skills[n]] else [])
  }

  function Names(skills: seq<Skill>): (r: seq<string>)
    ensures |r| == |skills|
  {
    seq(|skills|, i requires 0 <= i < |skills| => skills[i].name)
  }

  function Description(text: string, skills: seq<Skill>): string
  {
    "process: " + text + " (skills: " + Joined(Names(skills), ", ") + ")"
  }

  predicate Qualifies(text: string, a: Agent)
  {
    a.enabled && Matched(ToLower(text), a.skills) != []
  }

  function SpecFor(text: string, a: Agent): SubtaskSpec
  {
    var matched := Matched(ToLower(text), a.skills);
    SubtaskSpec(a.id, Description(text, matched), matched, |matched|)
  }

  function Candidates(text: string, agents: seq<Agent>): seq<SubtaskSpec>
  {
    if agents == [] then []
    else
      var n := |agents| - 1;
      Candidates(text, agents[..n]) + (if Qualifies(text, agents[n]) then [SpecFor(text, agents[n])] else [])
  }

  /** Higher scores first, then smaller ids. */
  predicate Before(x: SubtaskSpec, y: SubtaskSpec)
  {
    if x.score != y.score then x.score > y.score else StringLess(x.agentId, y.agentId)
  }

  function Decomposed(text: string, agents: seq<Agent>): seq<SubtaskSpec>
  {
    var specs := Candidates(text, agents);
    if specs == [] then [SubtaskSpec("", text, [], 0)] else SortStable(Before, specs)
  }

  // ---- the program ------------------------------------------------------

  method BuildDescription(text: string, skills: seq<Skill>) returns (d: string)
    ensures d == Description(text, skills)
  {
    var names: seq<string> := [];
    for i := 0 to |skills|
      invariant names == Names(skills)[..i]
    {
      names := names + [skills[i].name];
    }
    assert names == Names(skills);
    d := "process: " + text + " (skills: " + Joined(names, ", ") + ")";
  }

  method Decompose(text: string, agents: seq<Agent>) returns (result: seq<SubtaskSpec>)
    ensures result == Decomposed(text, agents)
  {
    var lower := ToLower(text);
    var specs: seq<SubtaskSpec> := [];
    for i := 0 to |agents|
      invariant specs == Candidates(text, agents[..i])
    {
      var a := agents[i];
      assert agents[..i + 1][..i] == agents[..i];
      if a.enabled {
        var matched: seq<Skill> := [];
        for j := 0 to |a.skills|
          invariant matched == Matched(lower, a.skills[..j])
        {
          assert a.skills[..j + 1][..j] == a.skills[..j];
          if SkillMatches(lower, a.skills[j]) {
            matched := matched + [a.skills[j]];
          }
        }
        assert a.skills[..|a.skills|] == a.skills;
        if |matched| > 0 {
          var description := BuildDescription(text, matched);
          specs := specs + [SubtaskSpec(a.id, description, matched, |matched|)];
        }
      }
    }
    assert agents[..|agents|] == agents;
    var slice := new SubtaskSpec[|specs|](i requires 0 <= i < |specs| => specs[i]);
    assert slice[..] == specs;
    SortInPlace(Before, slice);
    if slice.Length == 0 {
      return [SubtaskSpec("", text, [], 0)];
    }
    result := slice[..];
  }

  // ---- what the candidates are ------------------------------------------

  lemma {:induction false} MatchedExactly(lower: string, skills: seq<Skill>, s: Skill)
    ensures s in Matched(lower, skills) <==> s in skills && SkillMatches(lower, s)
  {
    if skills != [] {
      var n := |skills| - 1;
      MatchedExactly(lower, skills[..n], s);
      assert skills == skills[..n] + [skills[n]];
    }
  }

  /** Two characters that differ at most in being upper or lower case. */
  predicate SameButCase(x: char, y: char)
  {
    x == y || ('A' <= x <= 'Z' && y == x + 32 as char) || ('A' <= y <= 'Z' && x == y + 32 as char)
  }

  lemma SameLower(x: char, y: char)
    ensures LowerChar(x) == LowerChar(y) <==> SameButCase(x, y)
  {
  }

  /** Where the trimmed text stands in the text: blanks before and after it. */
  predicate TrimsTo(s: string, p: nat, q: nat)
  {
    && p <= q <= |s|
    && (forall k :: 0 <= k < |s| && (k < p || q <= k) ==> s[k] == ' ' || 9 as char <= s[k] <= 13 as char)
    && (p < q ==> !(s[p] == ' ' || 9 as char <= s[p] <= 13 as char))
    && (p < q ==> !(s[q - 1] == ' ' || 9 as char <= s[q - 1] <= 13 as char))
  }

  lemma {:induction false} TrimFinds(s: string) returns (p: nat, q: nat)
    ensures TrimsTo(s, p, q) && TrimSpace(s) == s[p..q]
  {
    p, q := 0, |s|;
    if s != "" && Blank(s[0]) {
      p, q := TrimFinds(s[1..]);
      p, q := p + 1, q + 1;
      assert s[1..][p - 1..q - 1] == s[p..q];
    } else if s != "" && Blank(s[|s| - 1]) {
      p, q := TrimFinds(s[..|s| - 1]);
      assert s[..|s| - 1][p..q] == s[p..q];
    } else {
      assert s[0..|s|] == s;
    }
  }

  lemma TrimIsUnique(s: string, p: nat, q: nat, p': nat, q': nat)
    requires TrimsTo(s, p, q) && TrimsTo(s, p', q') && p < q
    ensures p < q && (p' < q' ==> p == p' && q == q') && p' < q'
  {
  }

  lemma LowerOccurs(text: string, word: string, i: nat)
    ensures OccursAt(ToLower(text), ToLower(word), i) <==>
            i + |word| <= |text| && forall k :: 0 <= k < |word| ==> SameButCase(text[i + k], word[k])
  {
    var t, w := ToLower(text), ToLower(word);
    if i + |word| <= |text| {
      forall k | 0 <= k < |word|
        ensures t[i..i + |word|][k] == w[k] <==> SameButCase(text[i + k], word[k])
      {
        SameLower(text[i + k], word[k]);
      }
    }
  }

  /** Without the blanks around it the keyword has at least two characters, and
      they stand next to one another in the text from `i` on, upper and lower case
      being the same. */
  predicate MentionedAt(text: string, keyword: string, p: nat, q: nat, i: nat)
  {
    && TrimsTo(keyword, p, q) && p + 2 <= q && i + (q - p) <= |text|
    && forall k :: p <= k < q ==> SameButCase(text[i + (k - p)], keyword[k])
  }

  /** When a text mentions a keyword, outright. */
  lemma MentionedExactly(text: string, keyword: string)
    ensures KeywordMatch(ToLower(text), keyword) <==> exists p, q, i :: MentionedAt(text, keyword, p, q, i)
  {
    var p, q := TrimFinds(keyword);
    var word := keyword[p..q];
    hide SameButCase, TrimsTo, TrimSpace, ToLower, OccursAt;
    forall i: nat
      ensures OccursAt(ToLower(text), ToLower(word), i) <==>
              i + (q - p) <= |text| && forall k :: p <= k < q ==> SameButCase(text[i + (k - p)], keyword[k])
    {
      LowerOccurs(text, word, i);
      assert forall k :: p <= k < q ==> word[k - p] == keyword[k];
      assert forall k :: 0 <= k < q - p ==> word[k] == keyword[p + k];
    }
    if KeywordMatch(ToLower(text), keyword) {
      var i :| 0 <= i <= |ToLower(text)| && OccursAt(ToLower(text), ToLower(word), i);
      assert MentionedAt(text, keyword, p, q, i);
    }
    if p', q', i :| MentionedAt(text, keyword, p', q', i) {
      TrimIsUnique(keyword, p', q', p, q);
      assert OccursAt(ToLower(text), ToLower(word), i);
    }
  }

  lemma {:induction false} MatchedInOrder(lower: string, skills: seq<Skill>) returns (at: seq<nat>)
    ensures ListedAt(skills, at, Matched(lower, skills))
    ensures forall i :: 0 <= i < |skills| ==> (i in at <==> SkillMatches(lower, skills[i]))
  {
    hide SkillMatches;
    hide ListedAt;
    at := [];
    if skills == [] {
      NothingListed<Skill>();
    } else {
      var n := |skills| - 1;
      at := MatchedInOrder(lower, skills[..n]);
      assert forall i :: 0 <= i < n ==> skills[..n][i] == skills[i];
      at := ListLonger(skills, at, Matched(lower, skills[..n]), SkillMatches(lower, skills[n]));
    }
  }

  /** An agent's subtask, outright: its own id, its skills whose name or tool the
      text mentions, in their order, their number as the score, and a description
      that quotes the text and lists those skills' names. The agent has a subtask
      if it is enabled and has such a skill. */
  lemma SubtaskExactly(text: string, a: Agent) returns (at: seq<nat>, names: seq<string>)
    ensures var spec := SpecFor(text, a);
            && spec.agentId == a.id && spec.score == |spec.skills| && ListedAt(a.skills, at, spec.skills)
            && |names| == |spec.skills| && (forall i :: 0 <= i < |names| ==> names[i] == spec.skills[i].name)
            && spec.description == "process: " + text + " (skills: " + Joined(names, ", ") + ")"
    ensures forall i :: 0 <= i < |a.skills| ==>
              (i in at <==>
                 || (exists p, q, k :: MentionedAt(text, a.skills[i].name, p, q, k))
                 || (exists p, q, k :: MentionedAt(text, a.skills[i].tool, p, q, k)))
    ensures Qualifies(text, a) <==> a.enabled && at != []
  {
    at := MatchedInOrder(ToLower(text), a.skills);
    hide KeywordMatch, Matched, MentionedAt, Joined, ToLower;
    forall i | 0 <= i < |a.skills|
      ensures SkillMatches(ToLower(text), a.skills[i]) <==>
                || (exists p, q, k :: MentionedAt(text, a.skills[i].name, p, q, k))
                || (exists p, q, k :: MentionedAt(text, a.skills[i].tool, p, q, k))
    {
      MentionedExactly(text, a.skills[i].name);
      MentionedExactly(text, a.skills[i].tool);
    }
    names := Names(Matched(ToLower(text), a.skills));
  }

  lemma {:induction false} CandidatesExactly(text: string, agents: seq<Agent>, spec: SubtaskSpec)
    ensures spec in Candidates(text, agents) <==>
            exists i :: 0 <= i < |agents| && Qualifies(text, agents[i]) && spec == SpecFor(text, agents[i])
  {
    hide Qualifies, SpecFor;
    if agents != [] {
      var n := |agents| - 1;
      var init := agents[..n];
      CandidatesExactly(text, init, spec);
      if i :| 0 <= i < n && Qualifies(text, init[i]) && spec == SpecFor(text, init[i]) {
        assert agents[i] == init[i];
      }
      if i :| 0 <= i < |agents| && Qualifies(text, agents[i]) && spec == SpecFor(text, agents[i]) {
        if i < n {
          assert init[i] == agents[i];
        }
      }
    }
  }

  lemma {:induction false} CandidatesConcat(text: string, a: seq<Agent>, b: seq<Agent>)
    ensures Candidates(text, a + b) == Candidates(text, a) + Candidates(text, b)
  {
    hide Qualifies, SpecFor;
    if b == [] {
      assert a + b == a;
    } else {
      var n := |b| - 1;
      var all := a + b;
      CandidatesConcat(text, a, b[..n]);
      assert all[..|all| - 1] == a + b[..n] && all[|all| - 1] == b[n];
      var last := if Qualifies(text, b[n]) then [SpecFor(text, b[n])] else [];
      assert Candidates(text, b) == Candidates(text, b[..n]) + last;
      assert Candidates(text, all) == Candidates(text, a + b[..n]) + last;
    }
  }

  /** One agent accounts for its own candidate and no other. */
  lemma CandidatesWithout(text: string, s: seq<Agent>, k: nat)
    requires k < |s|
    ensures multiset(Candidates(text, s))
         == multiset(Candidates(text, s[..k] + s[k + 1..])) + multiset(Candidates(text, [s[k]]))
  {
    hide Candidates;
    CandidatesConcat(text, s[..k], s[k + 1..]);
    CandidatesConcat(text, s[..k], [s[k]]);
    CandidatesConcat(text, s[..k] + [s[k]], s[k + 1..]);
    assert s == s[..k] + [s[k]] + s[k + 1..];
  }

  /** Reordering the agents only reorders the candidates. */
  lemma {:induction false} CandidatesPermute(text: string, a: seq<Agent>, b: seq<Agent>)
    requires multiset(a) == multiset(b)
    ensures multiset(Candidates(text, a)) == multiset(Candidates(text, b))
    decreases |a|
  {
    hide Candidates;
    assert |a| == |multiset(a)| == |multiset(b)| == |b|;
    if a == [] {
      assert b == [];
    } else {
      var n := |a| - 1;
      assert a[n] in multiset(b);
      var k :| 0 <= k < |b| && b[k] == a[n];
      assert a[..n] + a[n + 1..] == a[..n];
      RemovedFrom(a, n);
      RemovedFrom(b, k);
      CandidatesPermute(text, a[..n], b[..k] + b[k + 1..]);
      CandidatesWithout(text, a, n);
      CandidatesWithout(text, b, k);
    }
  }

  lemma BeforeIsWeakOrder()
    ensures WeakOrder(Before)
    ensures forall x, y :: Tied(Before, x, y) <==> x.score == y.score && x.agentId == y.agentId
  {
    forall x: SubtaskSpec, y: SubtaskSpec
      ensures Before(x, y) ==> !Before(y, x)
      ensures Tied(Before, x, y) <==> x.score == y.score && x.agentId == y.agentId
    {
      StringLessTrichotomy(x.agentId, y.agentId);
    }
    forall x: SubtaskSpec, y: SubtaskSpec, z: SubtaskSpec | !Before(x, y) && !Before(y, z)
      ensures !Before(x, z)
    {
      if x.score == y.score == z.score {
        StringLessTrichotomy(x.agentId, y.agentId);
        StringLessTrichotomy(y.agentId, z.agentId);
        StringLessTrichotomy(x.agentId, z.agentId);
        if StringLess(z.agentId, y.agentId) && StringLess(y.agentId, x.agentId) {
          StringLessTransitive(z.agentId, y.agentId, x.agentId);
        }
      }
    }
  }

  // ---- what the decomposition is ----------------------------------------

  lemma DecomposedIsSorted(text: string, agents: seq<Agent>)
    ensures Decomposed(text, agents) != []
    ensures (forall i :: 0 <= i < |agents| ==> !Qualifies(text, agents[i])) <==>
            Decomposed(text, agents) == [SubtaskSpec("", text, [], 0)]
    ensures (exists i :: 0 <= i < |agents| && Qualifies(text, agents[i])) ==>
            var r := Decomposed(text, agents);
            && Ordered(Before, r)
            && multiset(r) == multiset(Candidates(text, agents))
            && forall spec :: spec in r <==>
                 exists i :: 0 <= i < |agents| && Qualifies(text, agents[i]) && spec == SpecFor(text, agents[i])
  {
    var specs := Candidates(text, agents);
    BeforeIsWeakOrder();
    SortOrdered(Before, specs);
    SortPermutes(Before, specs);
    var r := SortStable(Before, specs);
    forall spec
      ensures spec in r <==> spec in specs
      ensures spec in specs <==>
              exists i :: 0 <= i < |agents| && Qualifies(text, agents[i]) && spec == SpecFor(text, agents[i])
    {
      CandidatesExactly(text, agents, spec);
      assert spec in r <==> spec in multiset(r);
      assert spec in specs <==> spec in multiset(specs);
    }
    assert specs != [] ==> specs[0] in specs;
    if i :| 0 <= i < |agents| && Qualifies(text, agents[i]) {
      assert SpecFor(text, agents[i]) in specs;
      assert r[0] in specs;
    }
  }

  lemma BeforeExactly(x: SubtaskSpec, y: SubtaskSpec)
    requires !Before(y, x)
    ensures x.score >= y.score
    ensures x.score == y.score ==>
              !(exists k :: 0 <= k <= |y.agentId| && k <= |x.agentId| && y.agentId[..k] == x.agentId[..k]
                            && if k == |y.agentId| then k < |x.agentId|
                               else k < |x.agentId| && y.agentId[k] < x.agentId[k])
  {
    StringLessExactly(y.agentId, x.agentId);
    hide StringLess;
  }

  /** Never empty; the single agent-less subtask exactly when no agent
      qualifies, and otherwise exactly the qualifying agents' subtasks, each as
      often as there are agents that yield it. Scores never rise along the list,
      and where they are equal no agent id is below the one before it: by the
      first character in which they differ, a proper prefix being below. */
  lemma DecomposedExactly(text: string, agents: seq<Agent>)
    ensures Decomposed(text, agents) != []
    ensures (forall i :: 0 <= i < |agents| ==> !Qualifies(text, agents[i])) <==>
            Decomposed(text, agents) == [SubtaskSpec("", text, [], 0)]
    ensures (exists i :: 0 <= i < |agents| && Qualifies(text, agents[i])) ==>
            var r := Decomposed(text, agents);
            && multiset(r) == multiset(Candidates(text, agents))
            && forall spec :: spec in r <==>
                 exists i :: 0 <= i < |agents| && Qualifies(text, agents[i]) && spec == SpecFor(text, agents[i])
    ensures var r := Decomposed(text, agents);
            forall i, j :: 0 <= i < j < |r| ==> r[i].score >= r[j].score
    ensures var r := Decomposed(text, agents);
            forall i, j :: 0 <= i < j < |r| && r[i].score == r[j].score ==>
              !(exists k :: 0 <= k <= |r[j].agentId| && k <= |r[i].agentId|
                            && r[j].agentId[..k] == r[i].agentId[..k]
                            && if k == |r[j].agentId| then k < |r[i].agentId|
                               else k < |r[i].agentId| && r[j].agentId[k] < r[i].agentId[k])
  {
    DecomposedIsSorted(text, agents);
    hide Decomposed, Candidates, SpecFor, Qualifies, Before;
    var r := Decomposed(text, agents);
    assert Ordered(Before, r) by {
      if !exists i :: 0 <= i < |agents| && Qualifies(text, agents[i]) {
        assert |r| == 1;
      }
    }
    forall i, j | 0 <= i < j < |r|
      ensures r[i].score >= r[j].score
      ensures r[i].score == r[j].score ==>
                !(exists k :: 0 <= k <= |r[j].agentId| && k <= |r[i].agentId|
                              && r[j].agentId[..k] == r[i].agentId[..k]
                              && if k == |r[j].agentId| then k < |r[i].agentId|
                                 else k < |r[i].agentId| && r[j].agentId[k] < r[i].agentId[k])
    {
      BeforeExactly(r[i], r[j]);
    }
  }

  // ---- the order of the agents ------------------------------------------

  /** Qualifying agents with equal ids and equally many matching skills yield
      the same subtask. */
  predicate TiesAgree(text: string, agents: seq<Agent>)
  {
    forall i, j | 0 <= i < j < |agents| && Qualifies(text, agents[i]) && Qualifies(text, agents[j]) ::
      var x, y := SpecFor(text, agents[i]), SpecFor(text, agents[j]);
      x.agentId == y.agentId && x.score == y.score ==> x == y
  }

  ghost predicate Canonical(text: string, agents: seq<Agent>)
  {
    forall other :: multiset(other) == multiset(agents) ==> Decomposed(text, other) == Decomposed(text, agents)
  }

  lemma TiesAgreeIsCanonical(text: string, agents: seq<Agent>)
    requires TiesAgree(text, agents)
    ensures Canonical(text, agents)
  {
    BeforeIsWeakOrder();
    var specs := Candidates(text, agents);
    forall x, y | x in specs && y in specs && Tied(Before, x, y)
      ensures x == y
    {
      CandidatesExactly(text, agents, x);
      CandidatesExactly(text, agents, y);
      var i :| 0 <= i < |agents| && Qualifies(text, agents[i]) && x == SpecFor(text, agents[i]);
      var j :| 0 <= j < |agents| && Qualifies(text, agents[j]) && y == SpecFor(text, agents[j]);
      assert i < j || j < i || i == j;
    }
    forall other | multiset(other) == multiset(agents)
      ensures Decomposed(text, other) == Decomposed(text, agents)
    {
      var others := Candidates(text, other);
      CandidatesPermute(text, agents, other);
      assert |specs| == |multiset(specs)| == |multiset(others)| == |others|;
      SortOrdered(Before, specs);
      SortOrdered(Before, others);
      SortPermutes(Before, specs);
      SortPermutes(Before, others);
      var a, b := SortStable(Before, specs), SortStable(Before, others);
      forall x | x in a
        ensures x in specs
      {
        assert x in multiset(a);
      }
      OrderedUnique(Before, a, b);
    }
  }

  /** Where an agent's subtask sits among the candidates tied with `x`. */
  lemma {:induction false} TiedPosition(text: string, agents: seq<Agent>, x: SubtaskSpec, i: nat)
    requires i < |agents| && Qualifies(text, agents[i]) && Tied(Before, x, SpecFor(text, agents[i]))
    ensures var k := |TiedWith(Before, x, Candidates(text, agents[..i]))|;
            var all := TiedWith(Before, x, Candidates(text, agents));
            k < |all| && all[k] == SpecFor(text, agents[i])
    decreases |agents|
  {
    hide Qualifies, SpecFor, Tied;
    var n := |agents| - 1;
    var init := agents[..n];
    var earlier, all := Candidates(text, init), Candidates(text, agents);
    if Qualifies(text, agents[n]) {
      assert all[..|all| - 1] == earlier;
    } else {
      assert all == earlier;
    }
    if i < n {
      TiedPosition(text, init, x, i);
      assert init[..i] == agents[..i];
    }
  }

  /** Swapping two agents that tie on different subtasks swaps the subtasks. */
  lemma SwapShows(text: string, agents: seq<Agent>, other: seq<Agent>, i: nat, j: nat)
    requires i < j < |agents| && other == agents[i := agents[j]][j := agents[i]]
    requires Qualifies(text, agents[i]) && Qualifies(text, agents[j])
    requires Tied(Before, SpecFor(text, agents[i]), SpecFor(text, agents[i]))
    requires Tied(Before, SpecFor(text, agents[i]), SpecFor(text, agents[j]))
    requires SpecFor(text, agents[i]) != SpecFor(text, agents[j])
    ensures var x := SpecFor(text, agents[i]);
            TiedWith(Before, x, Candidates(text, agents)) != TiedWith(Before, x, Candidates(text, other))
  {
    hide Qualifies, SpecFor, Tied, TiedWith, Candidates;
    var x := SpecFor(text, agents[i]);
    TiedPosition(text, agents, x, i);
    TiedPosition(text, other, x, i);
    assert other[..i] == agents[..i];
  }

  lemma SwapIsNotCanonical(text: string, agents: seq<Agent>, other: seq<Agent>, x: SubtaskSpec)
    requires multiset(other) == multiset(agents)
    requires x in Candidates(text, agents) && x in Candidates(text, other)
    requires TiedWith(Before, x, Candidates(text, agents)) != TiedWith(Before, x, Candidates(text, other))
    ensures !Canonical(text, agents)
  {
    hide Tied, TiedWith, SortStable, Candidates, WeakOrder, Before, StringLess;
    BeforeIsWeakOrder();
    SortKeepsTies(Before, Candidates(text, agents), x);
    SortKeepsTies(Before, Candidates(text, other), x);
    assert Decomposed(text, other) != Decomposed(text, agents);
  }

  lemma TiesDisagreeIsNotCanonical(text: string, agents: seq<Agent>, i: nat, j: nat)
    requires i < j < |agents| && Qualifies(text, agents[i]) && Qualifies(text, agents[j])
    requires SpecFor(text, agents[i]).agentId == SpecFor(text, agents[j]).agentId
    requires SpecFor(text, agents[i]).score == SpecFor(text, agents[j]).score
    requires SpecFor(text, agents[i]) != SpecFor(text, agents[j])
    ensures !Canonical(text, agents)
  {
    hide Qualifies, SpecFor, Tied, TiedWith, Candidates, Canonical, WeakOrder, Before, StringLess;
    var other := agents[i := agents[j]][j := agents[i]];
    var x := SpecFor(text, agents[i]);
    SwapPermutes(agents, i, j);
    BeforeIsWeakOrder();
    SwapShows(text, agents, other, i, j);
    CandidatesExactly(text, agents, x);
    CandidatesExactly(text, other, x);
    assert other[j] == agents[i];
    SwapIsNotCanonical(text, agents, other, x);
  }

  /** The decomposition ignores the order of the agents exactly when tied
      agents would get the same subtask. */
  lemma CanonicalExactlyWhen(text: string, agents: seq<Agent>)
    ensures Canonical(text, agents) <==> TiesAgree(text, agents)
  {
    if TiesAgree(text, agents) {
      TiesAgreeIsCanonical(text, agents);
    } else {
      var i, j :| 0 <= i < j < |agents| && Qualifies(text, agents[i]) && Qualifies(text, agents[j])
        && SpecFor(text, agents[i]).agentId == SpecFor(text, agents[j]).agentId
        && SpecFor(text, agents[i]).score == SpecFor(text, agents[j]).score
        && SpecFor(text, agents[i]) != SpecFor(text, agents[j]);
      TiesDisagreeIsNotCanonical(text, agents, i, j);
    }
  }

  /** With distinct ids, any reordering of the agents gives the same subtasks
      in the same order. */
  lemma DistinctIdsAreCanonical(text: string, agents: seq<Agent>, other: seq<Agent>)
    requires forall i, j :: 0 <= i < j < |agents| ==> agents[i].id != agents[j].id
    requires multiset(other) == multiset(agents)
    ensures Decomposed(text, other) == Decomposed(text, agents)
  {
    CanonicalExactlyWhen(text, agents);
  }
}
