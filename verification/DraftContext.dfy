/** The draft model's context in speculative decoding: a key-value memory that is shifted,
    truncated and extended in place, and the token list that has to stay its mirror image. */
module DraftContext {
  import opened Common

  /** What the memory holds when the tokens of `s` have been evaluated at positions 0, 1, ... */
  function Mirror(s: seq<Token>): (cells: map<nat, Token>) {
    map p: nat | p < |s| :: s[p]
  }

  /** The draft model together with its freshly reset sampler: from what the memory holds and the
      tokens accepted since the reset, its best candidate and the probability of it. */
  type Model = (map<nat, Token>, seq<Token>) -> (Token, real)

  datatype Params = Params(nDraft: nat, nReuse: int, pMin: real)

  // ----- the reference: greedy drafting over a plain token list -----

  /** Continue `context`, of which the tokens `drafted` are already drafted ones, until there are
      `nDraft` of them or the model is not sure enough. */
  function Greedy(model: Model, context: seq<Token>, drafted: seq<Token>, params: Params): (r: seq<Token>)
    requires |drafted| < params.nDraft
    ensures |drafted| < |r| <= params.nDraft
    decreases params.nDraft - |drafted|
  {
    var (id, p) := model(Mirror(context), drafted);
    var more := drafted + [id];
    if |more| == params.nDraft || p < params.pMin then more
    else Greedy(model, context + [id], more, params)
  }

  /** Every drafted token is the model's best candidate behind those before it; all but the last
      are likely enough, and the last one is the last wanted or is not likely enough. */
  lemma {:induction false} GreedyIs(model: Model, context: seq<Token>, drafted: seq<Token>, params: Params)
    requires |drafted| < params.nDraft
    ensures
      var r := Greedy(model, context, drafted, params);
      && drafted <= r
      && forall j :: |drafted| <= j < |r| ==>
           var (id, p) := model(Mirror(context + r[|drafted|..j]), r[..j]);
           r[j] == id && if j + 1 < |r| then p >= params.pMin else |r| == params.nDraft || p < params.pMin
    decreases params.nDraft - |drafted|
  {
    var (id, p) := model(Mirror(context), drafted);
    var more := drafted + [id];
    var r := Greedy(model, context, drafted, params);
    hide Mirror;
    if |more| < params.nDraft && p >= params.pMin {
      GreedyIs(model, context + [id], more, params);
      forall j | |drafted| <= j < |r|
        ensures
          var (next, q) := model(Mirror(context + r[|drafted|..j]), r[..j]);
          r[j] == next && if j + 1 < |r| then q >= params.pMin else |r| == params.nDraft || q < params.pMin
      {
        if j == |drafted| {
          assert r[..j] == drafted && context + r[|drafted|..j] == context;
        } else {
          assert r[|drafted|..j] == [id] + r[|more|..j];
          assert context + r[|drafted|..j] == context + [id] + r[|more|..j];
        }
      }
    } else {
      assert r[..|drafted|] == drafted && context + r[|drafted|..|drafted|] == context;
    }
  }

  /** The part of the prompt that fits in `n` positions. */
  function Window(prompt: seq<Token>, n: nat): (w: seq<Token>)
    ensures |w| == (if |prompt| <= n then |prompt| else n)
    ensures w <= prompt[|prompt| - |w|..]
  {
    if |prompt| <= n then prompt else prompt[|prompt| - n..]
  }

  /** How far `a` and `b` agree from their starts. */
  function Agree(a: seq<Token>, b: seq<Token>): (n: nat)
    ensures n <= |a| && n <= |b| && a[..n] == b[..n]
    ensures n < |a| && n < |b| ==> a[n] != b[n]
  {
    if a == [] || b == [] || a[0] != b[0] then 0
    else
      assert forall k :: 0 < k < |a| ==> a[k] == a[1..][k - 1];
      assert forall k :: 0 < k < |b| ==> b[k] == b[1..][k - 1];
      1 + Agree(a[1..], b[1..])
  }

  lemma SameAt(a: seq<Token>, b: seq<Token>, n: nat, k: nat)
    requires k < n <= |a| && n <= |b| && a[..n] == b[..n]
    ensures a[k] == b[k]
  {
    assert a[..n][k] == b[..n][k];
  }

  lemma AgreeIs(a: seq<Token>, b: seq<Token>, n: nat)
    requires n <= |a| && n <= |b| && a[..n] == b[..n]
    requires n < |a| && n < |b| ==> a[n] != b[n]
    ensures Agree(a, b) == n
  {
    var m := Agree(a, b);
    if m < n {
      SameAt(a, b, n, m);
    } else if n < m {
      SameAt(a, b, m, n);
    }
  }

  /** A match is worth keeping when it is long enough or the whole prompt fits anyway. */
  predicate WorthKeeping(n: nat, params: Params, wholePromptFits: bool) {
    n >= params.nReuse || wholePromptFits
  }

  /** `(i, n)` is the stretch of `had` that is kept: the longest worthwhile agreement with the
      window, and the first of these; n is 0 when there is none. */
  ghost predicate BestReuse(had: seq<Token>, window: seq<Token>, params: Params, fits: bool, i: nat, n: nat) {
    && i + n <= |had|
    && (n > 0 ==> Agree(window, had[i..]) == n && WorthKeeping(n, params, fits))
    && (forall j :: 0 <= j < |had| && WorthKeeping(Agree(window, had[j..]), params, fits) ==>
          Agree(window, had[j..]) <= n && (j < i ==> Agree(window, had[j..]) < n))
  }

  lemma WindowIs(prompt: seq<Token>, n: nat, start: nat)
    requires start == if |prompt| - n > 0 then |prompt| - n else 0
    ensures prompt[start..] == Window(prompt, n) && |prompt[start..]| <= n
  {}

  /** The stretch kept is the start of the window. */
  lemma ReuseAgrees(had: seq<Token>, window: seq<Token>, params: Params, fits: bool, i: nat, n: nat)
    requires BestReuse(had, window, params, fits, i, n)
    ensures n <= |window| && i + n <= |had| && had[i..i + n] == window[..n]
  {
    if n > 0 {
      assert had[i..i + n] == had[i..][..n];
    }
  }

  /** The previous draft is handed out again. */
  predicate HandsBack(had: seq<Token>, i: nat, n: nat, idLast: Token) {
    n > 0 && i + n < |had| && had[i + n] == idLast
  }

  /** At most the first n tokens. */
  function FirstOf(s: seq<Token>, n: nat): (r: seq<Token>) {
    if |s| <= n then s else s[..n]
  }

  /** What one call does: it hands back the rest of the previous draft, or leaves in the mirror
      the window of the prompt, the last token and all but the last token of a greedy draft. */
  ghost predicate Drafted(model: Model, capacity: nat, had: seq<Token>, prompt: seq<Token>, idLast: Token, params: Params,
                          has: seq<Token>, result: seq<Token>)
    requires 1 <= params.nDraft <= capacity
  {
    exists i, n :: DraftedWith(model, capacity, had, prompt, idLast, params, i, n, has, result)
  }

  ghost predicate DraftedWith(model: Model, capacity: nat, had: seq<Token>, prompt: seq<Token>, idLast: Token, params: Params,
                              i: nat, n: nat, has: seq<Token>, result: seq<Token>)
    requires 1 <= params.nDraft <= capacity
  {
    var nCtx := capacity - params.nDraft;
    var window := Window(prompt, nCtx);
    && BestReuse(had, window, params, nCtx >= |prompt|, i, n)
    && (HandsBack(had, i, n, idLast) ==>
          has == had && result == FirstOf(had[i + n + 1..], params.nDraft))
    && (!HandsBack(had, i, n, idLast) ==>
          && result == Greedy(model, window + [idLast], [], params)
          && has == window + [idLast] + result[..|result| - 1])
  }

  lemma ShowHandedBack(model: Model, capacity: nat, had: seq<Token>, prompt: seq<Token>, idLast: Token, params: Params,
                       i: nat, n: nat)
    requires 1 <= params.nDraft <= capacity
    requires BestReuse(had, Window(prompt, capacity - params.nDraft), params, capacity - params.nDraft >= |prompt|, i, n)
    requires n > 0 && i + n < |had| && had[i + n] == idLast
    ensures Drafted(model, capacity, had, prompt, idLast, params, had, FirstOf(had[i + n + 1..], params.nDraft))
  {
    hide BestReuse, Window, Greedy;
    assert DraftedWith(model, capacity, had, prompt, idLast, params, i, n, had, FirstOf(had[i + n + 1..], params.nDraft));
  }

  lemma ShowDrafted(model: Model, capacity: nat, had: seq<Token>, prompt: seq<Token>, idLast: Token, params: Params,
                    i: nat, n: nat)
    requires 1 <= params.nDraft <= capacity
    requires BestReuse(had, Window(prompt, capacity - params.nDraft), params, capacity - params.nDraft >= |prompt|, i, n)
    requires i + n <= |had| && !(n > 0 && i + n < |had| && had[i + n] == idLast)
    ensures
      var context := Window(prompt, capacity - params.nDraft) + [idLast];
      var result := Greedy(model, context, [], params);
      Drafted(model, capacity, had, prompt, idLast, params, context + result[..|result| - 1], result)
  {
    hide BestReuse, Window, Greedy;
    var context := Window(prompt, capacity - params.nDraft) + [idLast];
    var result := Greedy(model, context, [], params);
    assert DraftedWith(model, capacity, had, prompt, idLast, params, i, n, context + result[..|result| - 1], result);
  }

  /** Whatever the call did, the draft is not longer than asked for. */
  lemma DraftSize(model: Model, capacity: nat, had: seq<Token>, prompt: seq<Token>, idLast: Token, params: Params,
                  has: seq<Token>, result: seq<Token>)
    requires 1 <= params.nDraft <= capacity
    requires Drafted(model, capacity, had, prompt, idLast, params, has, result)
    ensures |result| <= params.nDraft
  {}

  /** `had` has the first k tokens of the window at j. */
  predicate MatchesAt(had: seq<Token>, window: seq<Token>, j: nat, k: nat) {
    j + k <= |had| && k <= |window| && had[j..j + k] == window[..k]
  }

  lemma AgreeAtLeast(had: seq<Token>, window: seq<Token>, j: nat, k: nat)
    requires MatchesAt(had, window, j, k)
    ensures Agree(window, had[j..]) >= k
  {
    var m := Agree(window, had[j..]);
    assert had[j..][..k] == had[j..j + k];
    if m < k {
      SameAt(window, had[j..], k, m);
    }
  }

  /** What is kept is the longest beginning of the window that occurs in `had`, at the first place
      where it does; one shorter than `nReuse` counts only if the whole prompt fits. */
  lemma ReuseIs(had: seq<Token>, window: seq<Token>, params: Params, fits: bool, i: nat, n: nat)
    requires BestReuse(had, window, params, fits, i, n)
    ensures n > 0 ==> MatchesAt(had, window, i, n) && (fits || n >= params.nReuse)
    ensures forall j: nat, k: nat :: MatchesAt(had, window, j, k) && k > 0 && (fits || k >= params.nReuse) ==>
              k <= n && (j < i ==> k < n)
  {
    ReuseAgrees(had, window, params, fits, i, n);
    forall j: nat, k: nat | MatchesAt(had, window, j, k) && k > 0 && (fits || k >= params.nReuse)
      ensures k <= n && (j < i ==> k < n)
    {
      AgreeAtLeast(had, window, j, k);
      hide Agree;
      assert WorthKeeping(Agree(window, had[j..]), params, fits);
    }
  }

  /** One call in plain words: with the stretch kept, either its next token in `had` is the last
      one sampled, and up to `nDraft` tokens behind that are handed back, or a greedy draft is made
      and `had` becomes the end of the prompt, that token and the draft but its last one. */
  lemma CallIs(model: Model, capacity: nat, had: seq<Token>, prompt: seq<Token>, idLast: Token, params: Params,
               i: nat, n: nat, has: seq<Token>, result: seq<Token>)
    requires 1 <= params.nDraft <= capacity
    requires DraftedWith(model, capacity, had, prompt, idLast, params, i, n, has, result)
    ensures
      var space := capacity - params.nDraft;
      var window := prompt[if |prompt| <= space then 0 else |prompt| - space..];
      && BestReuse(had, window, params, |prompt| <= space, i, n)
      && if n > 0 && i + n < |had| && had[i + n] == idLast then
           var rest := had[i + n + 1..];
           has == had && result == if |rest| <= params.nDraft then rest else rest[..params.nDraft]
         else
           result == Greedy(model, window + [idLast], [], params) && result != [] && has + [result[|result| - 1]] == window + [idLast] + result
  {
    hide BestReuse, Greedy;
  }

  // ----- the memory -----

  /** Where the cell at position p was before positions p0 and up moved down by d. */
  function Origin(p: nat, p0: nat, d: nat): nat
    requires d <= p0
  {
    if p < p0 - d then p else p + d
  }

  class Memory {
    const capacity: nat
    var cells: map<nat, Token>

    ghost predicate InRange()
      reads this
    {
      forall p :: p in cells ==> p < capacity
    }

    constructor (capacity: nat)
      ensures this.capacity == capacity && cells == map[]
    {
      this.capacity := capacity;
      cells := map[];
    }

    method Clear()
      modifies this
      ensures cells == map[]
    {
      cells := map[];
    }

    /** Forget positions p0 <= p < p1; no p1 means all from p0 on. */
    method SeqRm(p0: nat, p1: int)
      modifies this
      ensures forall p :: p in cells <==> p in old(cells) && !(p0 <= p && (p1 < 0 || p < p1))
      ensures forall p :: p in cells ==> cells[p] == old(cells)[p]
    {
      cells := map p | p in cells && !(p0 <= p && (p1 < 0 || p < p1)) :: cells[p];
    }

    /** Move positions p >= p0 down by `d`; nothing may be in the way. */
    method SeqSubtract(p0: nat, d: nat)
      requires d <= p0 && InRange()
      requires forall p :: p0 - d <= p < p0 ==> p !in cells
      modifies this
      ensures forall p :: p in cells <==> Origin(p, p0, d) in old(cells)
      ensures forall p :: p in cells ==> cells[p] == old(cells)[Origin(p, p0, d)]
    {
      cells := map p: nat | p < capacity && Origin(p, p0, d) in cells :: cells[Origin(p, p0, d)];
    }

    /** Evaluate tokens at consecutive positions that are all new and inside the context. */
    method Decode(tokens: seq<Token>, start: nat)
      requires start + |tokens| <= capacity
      requires forall p :: start <= p ==> p !in cells
      modifies this
      ensures forall p :: p in cells <==> p in old(cells) || start <= p < start + |tokens|
      ensures forall p :: p in cells ==> cells[p] == if p < start then old(cells)[p] else tokens[p - start]
    {
      for k := 0 to |tokens|
        invariant forall p :: p in cells <==> p in old(cells) || start <= p < start + k
        invariant forall p :: p in cells ==> cells[p] == if p < start then old(cells)[p] else tokens[p - start]
      {
        cells := cells[start + k := tokens[k]];
      }
    }
  }

  lemma MirrorOfNothing()
    ensures Mirror([]) == map[]
  {}

  /** Cells that are those of the mirror of `s`, without the first i and moved down by i. */
  lemma MirrorShifted(s: seq<Token>, i: nat, cells: map<nat, Token>)
    requires i <= |s|
    requires forall p :: p in cells <==> i <= Origin(p, i, i) < |s|
    requires forall p :: p in cells ==> cells[p] == s[Origin(p, i, i)]
    ensures cells == Mirror(s[i..])
  {
    forall p: nat
      ensures p in cells <==> p < |s| - i
    {
      assert Origin(p, i, i) == p + i;
    }
  }

  // ----- drafting -----

  /** The part of `common_speculative` that drafts with a model of the same vocabulary. */
  class Drafter {
    const model: Model
    const memory: Memory
    var promptDft: seq<Token>

    /** Memory and mirror agree, and both stay inside the context. */
    ghost predicate Valid()
      reads this, memory
    {
      && memory.cells == Mirror(promptDft)
      && |promptDft| <= memory.capacity
    }

    constructor (model: Model, capacity: nat)
      ensures Valid() && fresh(memory) && promptDft == []
      ensures this.model == model && memory.capacity == capacity
    {
      this.model := model;
      promptDft := [];
      memory := new Memory(capacity);
    }

    /** How far the prompt from `iStart` on agrees with the mirror from `i` on. */
    method MatchLength(prompt: seq<Token>, iStart: nat, i: nat) returns (cur: nat)
      requires iStart <= |prompt| && i <= |promptDft|
      ensures cur == Agree(prompt[iStart..], promptDft[i..])
    {
      cur := 0;
      while iStart + cur < |prompt| && i + cur < |promptDft| && prompt[iStart + cur] == promptDft[i + cur]
        invariant iStart + cur <= |prompt| && i + cur <= |promptDft|
        invariant prompt[iStart..][..cur] == promptDft[i..][..cur]
      {
        cur := cur + 1;
      }
      AgreeIs(prompt[iStart..], promptDft[i..], cur);
    }

    method FindReuse(prompt: seq<Token>, iStart: nat, nCtx: nat, params: Params) returns (reuseI: nat, reuseN: nat)
      requires iStart <= |prompt|
      ensures BestReuse(promptDft, prompt[iStart..], params, nCtx >= |prompt|, reuseI, reuseN)
    {
      hide Agree;
      reuseI, reuseN := 0, 0;
      ghost var window := prompt[iStart..];
      for i := 0 to |promptDft|
        invariant reuseI + reuseN <= |promptDft| && reuseI <= i
        invariant reuseN > 0 ==> Agree(window, promptDft[reuseI..]) == reuseN && WorthKeeping(reuseN, params, nCtx >= |prompt|)
        invariant forall j :: 0 <= j < i && WorthKeeping(Agree(window, promptDft[j..]), params, nCtx >= |prompt|) ==>
          Agree(window, promptDft[j..]) <= reuseN && (j < reuseI ==> Agree(window, promptDft[j..]) < reuseN)
      {
        var cur := MatchLength(prompt, iStart, i);
        if (cur >= params.nReuse || nCtx >= |prompt|) && cur > reuseN {
          reuseI, reuseN := i, cur;
        }
      }
    }

    /** Drop the first i tokens, moving the others to the front. */
    method DropFront(i: nat)
      requires Valid() && i <= |promptDft|
      modifies this`promptDft, memory
      ensures Valid() && promptDft == old(promptDft)[i..]
    {
      ghost var was := promptDft;
      memory.SeqRm(0, i);
      memory.SeqSubtract(i, i);
      promptDft := promptDft[i..];
      MirrorShifted(was, i, memory.cells);
    }

    /** Drop the tokens from position n on. */
    method DropBack(n: nat)
      requires Valid() && n <= |promptDft|
      modifies this`promptDft, memory
      ensures Valid() && promptDft == old(promptDft)[..n]
    {
      memory.SeqRm(n, -1);
      promptDft := promptDft[..n];
    }

    /** Keep the stretch of length n from i on, moved to the front. */
    method Keep(i: nat, n: nat)
      requires Valid() && i + n <= |promptDft|
      modifies this`promptDft, memory
      ensures Valid() && promptDft == old(promptDft)[i..i + n]
    {
      hide Mirror;
      if n == 0 {
        MirrorOfNothing();
        memory.Clear();
        promptDft := [];
        return;
      }
      if i > 0 {
        DropFront(i);
      }
      if n < |promptDft| {
        DropBack(n);
      }
    }

    /** Evaluate `tokens` after what the memory holds. */
    method Extend(tokens: seq<Token>)
      requires Valid() && |promptDft| + |tokens| <= memory.capacity
      modifies this`promptDft, memory
      ensures Valid() && promptDft == old(promptDft) + tokens
    {
      if |tokens| > 0 {
        memory.Decode(tokens, |promptDft|);
      }
      promptDft := promptDft + tokens;
    }

    /** The drafting loop: the model's best candidates, each evaluated before the next. */
    method DraftTokens(params: Params) returns (result: seq<Token>)
      requires Valid() && params.nDraft >= 1 && |promptDft| + params.nDraft - 1 <= memory.capacity
      modifies this`promptDft, memory
      ensures Valid()
      ensures result == Greedy(model, old(promptDft), [], params)
      ensures promptDft == old(promptDft) + result[..|result| - 1]
    {
      hide Mirror;
      result := [];
      for d := 0 to params.nDraft
        invariant Valid()
        invariant |result| == d && promptDft == old(promptDft) + result
        invariant d < params.nDraft
        invariant Greedy(model, old(promptDft), [], params) == Greedy(model, promptDft, result, params)
      {
        ghost var before := result;
        var (id, p) := model(memory.cells, result);
        result := result + [id];
        assert result[..d] == before;
        if params.nDraft <= |result| {
          break;
        }
        if p < params.pMin {
          break;
        }
        Extend([id]);
      }
    }

    /** The previous draft, from position `from` on. */
    method HandBack(from: nat, nDraft: nat) returns (result: seq<Token>)
      requires from <= |promptDft| && nDraft >= 1
      ensures result == FirstOf(promptDft[from..], nDraft)
    {
      result := [];
      for k := from to |promptDft|
        invariant result == promptDft[from..k] && |result| < nDraft
      {
        result := result + [promptDft[k]];
        if nDraft <= |result| {
          break;
        }
      }
    }

    /** Bring the mirror from its kept stretch to `window` and draft after `idLast`. */
    method Redraft(window: seq<Token>, i: nat, n: nat, idLast: Token, params: Params) returns (result: seq<Token>)
      requires Valid() && params.nDraft >= 1 && |window| + params.nDraft <= memory.capacity
      requires i + n <= |promptDft| && n <= |window| && promptDft[i..i + n] == window[..n]
      modifies this`promptDft, memory
      ensures Valid()
      ensures result == Greedy(model, window + [idLast], [], params)
      ensures promptDft == window + [idLast] + result[..|result| - 1]
    {
      hide *;
      Keep(i, n);
      Extend(window[n..]);
      assert window == window[..n] + window[n..];
      Extend([idLast]);
      result := DraftTokens(params);
    }

    /** `common_speculative_gen_draft`. */
    method GenDraft(prompt: seq<Token>, idLast: Token, params: Params) returns (result: seq<Token>)
      requires Valid() && 1 <= params.nDraft <= memory.capacity
      modifies this`promptDft, memory
      ensures Valid()
      ensures |result| <= params.nDraft
      ensures Drafted(model, memory.capacity, old(promptDft), prompt, idLast, params, promptDft, result)
    {
      hide *;
      var nCtx := memory.capacity - params.nDraft;
      var iStart := if |prompt| - nCtx > 0 then |prompt| - nCtx else 0;
      ghost var had := promptDft;
      WindowIs(prompt, nCtx, iStart);
      var i, n := FindReuse(prompt, iStart, nCtx, params);
      ReuseAgrees(had, prompt[iStart..], params, nCtx >= |prompt|, i, n);
      if n > 0 && i + n < |promptDft| && promptDft[i + n] == idLast {
        result := HandBack(i + n + 1, params.nDraft);
        ShowHandedBack(model, memory.capacity, had, prompt, idLast, params, i, n);
        DraftSize(model, memory.capacity, had, prompt, idLast, params, promptDft, result);
        return;
      }
      result := Redraft(prompt[iStart..], i, n, idLast, params);
      ShowDrafted(model, memory.capacity, had, prompt, idLast, params, i, n);
      DraftSize(model, memory.capacity, had, prompt, idLast, params, promptDft, result);
    }
  }

  // ----- the early return -----

  /** The window occurs in what the draft context holds. */
  predicate Occurs(window: seq<Token>, had: seq<Token>) {
    exists j :: 0 <= j <= |had| && window <= had[j..]
  }

  lemma WholeWindowFound(had: seq<Token>, window: seq<Token>, params: Params, fits: bool, i: nat, n: nat)
    requires BestReuse(had, window, params, fits, i, n) && n > 0 && Occurs(window, had)
    ensures n == |window|
  {
    var j :| 0 <= j <= |had| && window <= had[j..];
    AgreeIs(window, had[j..], |window|);
    hide Agree;
  }

  /** What is handed back was drafted behind the present context if and only if the whole
      window occurs in the draft context; the code does not ask for that. */
  lemma HandedBackContinuesIff(model: Model, capacity: nat, had: seq<Token>, prompt: seq<Token>, idLast: Token,
                               params: Params, i: nat, n: nat, has: seq<Token>, result: seq<Token>)
    requires 1 <= params.nDraft <= capacity
    requires DraftedWith(model, capacity, had, prompt, idLast, params, i, n, has, result)
    requires HandsBack(had, i, n, idLast)
    ensures
      var window := Window(prompt, capacity - params.nDraft);
      Occurs(window, had) <==> window + [idLast] + result <= had[i..]
  {
    hide Greedy, Agree;
    var window := Window(prompt, capacity - params.nDraft);
    if Occurs(window, had) {
      WholeWindowFound(had, window, params, capacity - params.nDraft >= |prompt|, i, n);
      ReuseAgrees(had, window, params, capacity - params.nDraft >= |prompt|, i, n);
      hide *;
      ReadOn(had, window, i, n, idLast, FirstOf(had[i + n + 1..], params.nDraft));
    }
  }

  lemma ReadOn(had: seq<Token>, window: seq<Token>, i: nat, n: nat, idLast: Token, more: seq<Token>)
    requires i + n < |had| && had[i..i + n] == window && had[i + n] == idLast && more <= had[i + n + 1..]
    ensures window + [idLast] + more <= had[i..]
  {
    assert had[i..] == had[i..i + n] + ([had[i + n]] + had[i + n + 1..]);
  }

  /** A prompt that left the earlier draft after its first token still gets the rest of it. */
  lemma HandedBackAfterShortMatch(model: Model, has: seq<Token>, result: seq<Token>)
    requires Drafted(model, 8, [1, 9, 5], [1, 2, 3], 9, Params(2, 0, 0.5), has, result)
    ensures result == [5]
  {
    var had, window, params := [1, 9, 5], [1, 2, 3], Params(2, 0, 0.5);
    assert Window(window, 6) == window;
    AgreeIs(window, had[0..], 1);
    AgreeIs(window, had[1..], 0);
    AgreeIs(window, had[2..], 0);
    var i, n :| DraftedWith(model, 8, had, window, 9, params, i, n, has, result);
    assert n == 1 && i == 0;
  }

  lemma WholeWindowIsBest(had: seq<Token>, window: seq<Token>, params: Params, i: nat, n: nat)
    requires BestReuse(had, window, params, true, i, n)
    requires 0 < |window| && Agree(window, had) == |window|
    ensures i == 0 && n == |window|
  {
    hide Agree;
    assert had[0..] == had;
  }

  lemma SplitAt(before: seq<Token>, draft: seq<Token>, k: nat)
    requires k + 1 < |draft|
    ensures
      var had, window := before + draft[..|draft| - 1], before + draft[..k];
      window <= had && had[..|window|] == window[..|window|] && had[|window|] == draft[k]
      && had[|window| + 1..] == draft[k + 1..|draft| - 1]
  {}

  /** Once a draft has been made for a prompt that fits, a call after the target model agreed
      with its first tokens hands back what is left of it. */
  lemma AgreedDraftIsHandedBack(model: Model, capacity: nat, prompt: seq<Token>, id: Token, draft: seq<Token>, k: nat,
                                params: Params, has: seq<Token>, result: seq<Token>)
    requires 1 <= params.nDraft <= capacity && k + 1 < |draft|
    requires |prompt| + 1 + k <= capacity - params.nDraft
    requires Drafted(model, capacity, prompt + [id] + draft[..|draft| - 1],
                     prompt + [id] + draft[..k], draft[k], params, has, result)
    ensures has == prompt + [id] + draft[..|draft| - 1]
    ensures result == FirstOf(draft[k + 1..|draft| - 1], params.nDraft)
  {
    hide Greedy, Agree, BestReuse;
    var before := prompt + [id];
    var had := before + draft[..|draft| - 1];
    var window := before + draft[..k];
    var i, n :| DraftedWith(model, capacity, had, window, draft[k], params, i, n, has, result);
    SplitAt(before, draft, k);
    AgreeIs(window, had, |window|);
    WholeWindowIsBest(had, window, params, i, n);
  }
}
