/**
 Conversation memory of src/ai/services/conversation-memory.service.ts with its in-memory store: turns are added
 and old ones pruned.
 */
module ConversationMemory {
  import opened Common

  const MAX_TURNS := 20
  const MAX_TOKENS := 8000
  const TARGET_TOKENS := 4000   // half of MAX_TOKENS

  datatype Turn = Turn(userQuery: string, assistantResponse: Option<string>, tokensUsed: Option<nat>)

  function Tokens(t: Turn): nat {
    if t.tokensUsed.Some? then t.tokensUsed.value else 0
  }

  function Sum(turns: seq<Turn>): nat {
    if turns == [] then 0 else Tokens(turns[0]) + Sum(turns[1..])
  }

  predicate ShouldPrune(turns: seq<Turn>) {
    |turns| > MAX_TURNS || Sum(turns) > MAX_TOKENS
  }

  /** What pruning aims for. */
  predicate MeetsTargets(turns: seq<Turn>) {
    |turns| <= MAX_TURNS && (Sum(turns) <= TARGET_TOKENS || |turns| <= 1)
  }

  /** The number of oldest turns that pruning drops. */
  function Dropped(turns: seq<Turn>): (d: nat)
    ensures d <= |turns|
  {
    if MeetsTargets(turns) then 0 else 1 + Dropped(turns[1..])
  }

  /** It is the fewest with which the rest meets the targets, and never all. */
  lemma {:induction false} DroppedFewest(turns: seq<Turn>)
    ensures MeetsTargets(turns[Dropped(turns)..])
    ensures forall e :: 0 <= e < Dropped(turns) ==> !MeetsTargets(turns[e..])
    ensures turns != [] ==> Dropped(turns) < |turns|
    decreases |turns|
  {
    assert turns[0..] == turns;
    if !MeetsTargets(turns) {
      var rest := turns[1..];
      var d := Dropped(rest);
      DroppedFewest(rest);
      assert turns[1 + d..] == rest[d..];
      forall e | 0 <= e < 1 + d ensures !MeetsTargets(turns[e..]) {
        assert e > 0 ==> turns[e..] == rest[e - 1..];
      }
    }
  }

  /** The targets spelled out: at most 20 turns, and at most 4000 tokens unless one turn is left. */
  lemma PrunedFewest(turns: seq<Turn>)
    ensures var kept := Pruned(turns);
            && IsSuffix(kept, turns) && |kept| <= 20 && (Sum(kept) <= 4000 || |kept| <= 1)
            && forall more :: IsSuffix(more, turns) && |more| > |kept| ==> |more| > 20 || (Sum(more) > 4000 && |more| > 1)
  {
    DroppedFewest(turns);
    forall more | IsSuffix(more, turns) && |more| > |Pruned(turns)|
      ensures |more| > 20 || (Sum(more) > 4000 && |more| > 1)
    {
      assert more == turns[|turns| - |more|..];
      assert !MeetsTargets(turns[|turns| - |more|..]);
    }
  }

  function Pruned(turns: seq<Turn>): seq<Turn> {
    turns[Dropped(turns)..]
  }

  /** The turns kept after one more is added. */
  function Added(turns: seq<Turn>, turn: Turn): seq<Turn> {
    if ShouldPrune(turns + [turn]) then Pruned(turns + [turn]) else turns + [turn]
  }

  /** The turns kept after all of added, in order, were added to a new conversation. */
  function AddedAll(added: seq<Turn>): seq<Turn> {
    if added == [] then [] else Added(AddedAll(added[..|added| - 1]), added[|added| - 1])
  }

  predicate IsSuffix(suffix: seq<Turn>, turns: seq<Turn>) {
    |suffix| <= |turns| && suffix == turns[|turns| - |suffix|..]
  }

  /** The turns are a suffix of all that was added, ending with the newest; there are at most 20, and they have at
      most 8000 tokens unless only one is left. */
  ghost predicate Kept(turns: seq<Turn>, added: seq<Turn>) {
    && IsSuffix(turns, added)
    && (added != [] ==> turns != [] && turns[|turns| - 1] == added[|added| - 1])
    && |turns| <= 20
    && (Sum(turns) <= 8000 || |turns| == 1)
  }

  lemma KeptStep(turns: seq<Turn>, added: seq<Turn>, turn: Turn)
    requires IsSuffix(turns, added)
    ensures Kept(Added(turns, turn), added + [turn])
  {
    OneMoreKept(turns, turn);
    SuffixExtends(turns, added, turn);
    SuffixOfSuffix(Added(turns, turn), turns + [turn], added + [turn]);
  }

  lemma AddedAllStep(added: seq<Turn>, turn: Turn)
    ensures AddedAll(added + [turn]) == Added(AddedAll(added), turn)
  {
    assert (added + [turn])[..|added|] == added;
  }

  /** This holds after every sequence of additions. */
  lemma {:induction false} KeptTurns(added: seq<Turn>)
    ensures Kept(AddedAll(added), added)
    decreases |added|
  {
    if added != [] {
      var before, newest := added[..|added| - 1], added[|added| - 1];
      KeptTurns(before);
      KeptStep(AddedAll(before), before, newest);
      AddedAllStep(before, newest);
      assert before + [newest] == added;
    }
  }

  lemma OneMoreKept(turns: seq<Turn>, turn: Turn)
    ensures var kept := Added(turns, turn);
            && IsSuffix(kept, turns + [turn])
            && kept != [] && kept[|kept| - 1] == turn
            && |kept| <= MAX_TURNS
            && (Sum(kept) <= MAX_TOKENS || |kept| == 1)
  {
    var all := turns + [turn];
    DroppedFewest(all);
  }

  lemma SuffixExtends(suffix: seq<Turn>, turns: seq<Turn>, turn: Turn)
    requires IsSuffix(suffix, turns)
    ensures IsSuffix(suffix + [turn], turns + [turn])
  {
  }

  lemma SuffixOfSuffix(a: seq<Turn>, b: seq<Turn>, c: seq<Turn>)
    requires IsSuffix(a, b) && IsSuffix(b, c)
    ensures IsSuffix(a, c)
  {
  }

  /** Sizes alone do not decide the pruning: it drops to 4000 tokens, even where 8000 would do, as soon as there are
      more than 20 turns or 8000 tokens, and it never happens before. */
  lemma PruneOnlyWhenNeeded(turns: seq<Turn>, turn: Turn)
    ensures Added(turns, turn) != turns + [turn] <==>
            |turns| + 1 > 20 || (Sum(turns + [turn]) > 8000 && turns != [])
    ensures Added(turns, turn) != turns + [turn] ==>
              Sum(Added(turns, turn)) <= 4000 || Added(turns, turn) == [turn]
  {
    var all := turns + [turn];
    var d := Dropped(all);
    DroppedFewest(all);
    if d == 0 {
      assert all[0..] == all;
    }
    if ShouldPrune(all) && d > 0 {
      assert |all[d..]| < |all|;
    }
  }

  class Conversation {
    const userId: string
    var turns: seq<Turn>
    var totalTokens: int
    var totalTurns: nat      // metadata.totalTurns
    ghost var added: seq<Turn>

    /** The totals are exact, and the turns are what adding all of added has left. */
    ghost predicate Valid()
      reads this
    {
      turns == AddedAll(added) && totalTokens == Sum(turns)
    }

    constructor (userId: string)
      ensures Valid() && this.userId == userId && added == []
    {
      this.userId := userId;
      turns, totalTokens, totalTurns, added := [], 0, 0, [];
    }

    /** The two loops: first by the number of turns, then by tokens. */
    method Prune()
      requires totalTokens == Sum(turns) && turns != []
      modifies this`turns, this`totalTokens
      ensures turns == Pruned(old(turns)) && totalTokens == Sum(turns)
    {
      ghost var all, d := turns, 0;
      while |turns| > MAX_TURNS
        invariant d < |all| && turns == all[d..] && totalTokens == Sum(turns)
        invariant forall e :: 0 <= e < d ==> !MeetsTargets(all[e..])
        decreases |turns|
      {
        DropFirst(all, d);
        assert !MeetsTargets(all[d..]);
        totalTokens := totalTokens - Tokens(turns[0]);
        turns := turns[1..];
        d := d + 1;
      }
      while totalTokens > TARGET_TOKENS && |turns| > 1
        invariant d < |all| && turns == all[d..] && totalTokens == Sum(turns) && |turns| <= MAX_TURNS
        invariant forall e :: 0 <= e < d ==> !MeetsTargets(all[e..])
        decreases |turns|
      {
        DropFirst(all, d);
        assert !MeetsTargets(all[d..]);
        totalTokens := totalTokens - Tokens(turns[0]);
        turns := turns[1..];
        d := d + 1;
      }
      FewestIsUnique(all, d);
    }

    method Add(turn: Turn)
      requires Valid()
      modifies this
      ensures Valid() && added == old(added) + [turn]
      ensures turns == Added(old(turns), turn) && totalTurns == |old(turns)| + 1
    {
      SumAppend(turns, turn);
      turns := turns + [turn];
      totalTokens := totalTokens + Tokens(turn);
      totalTurns := |turns|;
      added := added + [turn];
      assert added[..|added| - 1] == old(added);
      if |turns| > MAX_TURNS || totalTokens > MAX_TOKENS {
        Prune();
      }
    }
  }

  class ConversationMemoryService {
    var memoryStore: map<string, Conversation>

    ghost predicate Valid()
      reads this, memoryStore.Values
    {
      && (forall id :: id in memoryStore ==> memoryStore[id].Valid())
      && (forall a, b :: a in memoryStore && b in memoryStore && a != b ==> memoryStore[a] != memoryStore[b])
    }

    constructor ()
      ensures Valid() && memoryStore == map[]
    {
      memoryStore := map[];
    }

    method CreateConversation(id: string, userId: string)
      requires Valid()
      modifies this
      ensures Valid() && id in memoryStore && fresh(memoryStore[id])
      ensures memoryStore == old(memoryStore)[id := memoryStore[id]]
      ensures memoryStore[id].added == [] && memoryStore[id].userId == userId
    {
      var conversation := new Conversation(userId);
      memoryStore := memoryStore[id := conversation];
    }

    /** An unknown conversation is refused; otherwise only that conversation changes, by exactly this turn. */
    method AddTurn(id: string, turn: Turn) returns (found: bool)
      requires Valid()
      modifies if id in memoryStore then {memoryStore[id]} else {}
      ensures Valid() && memoryStore == old(memoryStore)
      ensures found <==> id in memoryStore
      ensures found ==>
                memoryStore[id].added == old(memoryStore[id].added) + [turn] &&
                memoryStore[id].turns == Added(old(memoryStore[id].turns), turn) &&
                memoryStore[id].totalTurns == |old(memoryStore[id].turns)| + 1
    {
      if id !in memoryStore {
        return false;
      }
      memoryStore[id].Add(turn);
      found := true;
    }
  }

  lemma DropFirst(all: seq<Turn>, d: nat)
    requires d < |all|
    ensures all[d..][1..] == all[d + 1..] && all[d..][0] == all[d]
  {
  }

  /** A turn adds the tokens it used, if it says how many; with the empty list this determines every sum. */
  lemma {:induction false} SumAppend(turns: seq<Turn>, turn: Turn)
    ensures turn.tokensUsed == None ==> Sum(turns + [turn]) == Sum(turns)
    ensures turn.tokensUsed.Some? ==> Sum(turns + [turn]) == Sum(turns) + turn.tokensUsed.value
    ensures Sum([]) == 0
    decreases |turns|
  {
    if turns != [] {
      assert (turns + [turn])[1..] == turns[1..] + [turn];
      SumAppend(turns[1..], turn);
    }
  }

  lemma FewestIsUnique(all: seq<Turn>, d: nat)
    requires d <= |all| && MeetsTargets(all[d..]) && forall e :: 0 <= e < d ==> !MeetsTargets(all[e..])
    ensures d == Dropped(all)
  {
    DroppedFewest(all);
    assert d <= Dropped(all) && Dropped(all) <= d;
  }

  /** Dropping further turns keeps the targets met: the fewest is a threshold. */
  lemma {:induction false} TargetsMonotone(turns: seq<Turn>, d: nat, e: nat)
    requires d <= e <= |turns| && MeetsTargets(turns[d..])
    ensures MeetsTargets(turns[e..])
    decreases e
  {
    if d < e {
      TargetsMonotone(turns, d, e - 1);
      assert turns[e - 1..][1..] == turns[e..];
    }
  }
}
