/** The order of a laid-out resource block, in which nothing is left open: tables, then records, then texts. */
module ResourceOrder {
  import opened Wrappers
  import opened Buffers
  import opened Bytes
  import opened Resources
  import opened ResourceLayout

  // ----- texts

  /** The name at this place is the first with the text. */
  ghost predicate IsFirstUse(src: Block, names: seq<nat>, text: seq<byte>, place: nat) {
    && place < |names| && ReadString(src, names[place]) == Some(text)
    && forall k :: 0 <= k < place ==> ReadString(src, names[k]) != Some(text)
  }

  ghost predicate InUseOrder(src: Block, names: seq<nat>, texts: seq<seq<byte>>) {
    forall i: nat, j: nat, p: nat, q: nat ::
      i < j < |texts| && IsFirstUse(src, names, texts[i], p) && IsFirstUse(src, names, texts[j], q) ==> p < q
  }

  ghost predicate IsUsed(src: Block, names: seq<nat>, text: seq<byte>) {
    exists p: nat :: IsFirstUse(src, names, text, p)
  }

  ghost predicate AllUsed(src: Block, names: seq<nat>, texts: seq<seq<byte>>) {
    forall text :: text in texts ==> IsUsed(src, names, text)
  }

  ghost predicate AllListed(src: Block, names: seq<nat>, texts: seq<seq<byte>>) {
    forall name :: name in names ==> ReadString(src, name).Some? && ReadString(src, name).value in texts
  }

  /** Each text that some name has is listed once, in the order in which names first use them. */
  lemma {:induction false} TextsInOrder(src: Block, names: seq<nat>)
    requires Strings(src, names).Some?
    ensures var texts := Strings(src, names).value;
      InUseOrder(src, names, texts) && AllUsed(src, names, texts) && AllListed(src, names, texts)
    decreases |names|
  {
    hide ReadString, InUseOrder, AllUsed, AllListed;
    if names == [] {
      NoTexts(src);
    } else {
      var before, last := names[..|names| - 1], names[|names| - 1];
      var found, text := Strings(src, before).value, ReadString(src, last).value;
      TextsInOrder(src, before);
      assert names == before + [last];
      if text in found {
        KnownText(src, before, last, found);
      } else {
        NewText(src, before, last, found);
      }
    }
  }

  lemma NoTexts(src: Block)
    ensures InUseOrder(src, [], []) && AllUsed(src, [], []) && AllListed(src, [], [])
  {
  }

  lemma FirstUseStays(src: Block, names: seq<nat>, last: nat, text: seq<byte>, place: nat)
    ensures place < |names| ==> (IsFirstUse(src, names + [last], text, place) <==> IsFirstUse(src, names, text, place))
    ensures IsFirstUse(src, names, text, place) ==> IsFirstUse(src, names + [last], text, place)
    ensures place >= |names| && IsFirstUse(src, names + [last], text, place) ==>
      place == |names| && ReadString(src, last) == Some(text) && forall name :: name in names ==> ReadString(src, name) != Some(text)
  {
    hide ReadString;
    var more := names + [last];
    assert forall k :: 0 <= k < |names| ==> more[k] == names[k];
  }

  /** What was used before is used first where it was. */
  lemma UsesStay(src: Block, names: seq<nat>, last: nat, texts: seq<seq<byte>>)
    requires AllUsed(src, names, texts)
    ensures forall i: nat, p: nat :: i < |texts| ==>
      (IsFirstUse(src, names + [last], texts[i], p) <==> IsFirstUse(src, names, texts[i], p))
  {
    hide ReadString, IsFirstUse;
    forall i: nat, p: nat | i < |texts|
      ensures IsFirstUse(src, names + [last], texts[i], p) <==> IsFirstUse(src, names, texts[i], p)
    {
      FirstUseStays(src, names, last, texts[i], p);
      assert texts[i] in texts;
      var q: nat :| IsFirstUse(src, names, texts[i], q);
      UsedThere(src, names, texts[i], q);
    }
  }

  lemma StaysUsed(src: Block, names: seq<nat>, last: nat, text: seq<byte>)
    requires IsUsed(src, names, text)
    ensures IsUsed(src, names + [last], text)
  {
    hide ReadString, IsFirstUse;
    var p: nat :| IsFirstUse(src, names, text, p);
    FirstUseStays(src, names, last, text, p);
  }

  lemma KnownText(src: Block, names: seq<nat>, last: nat, texts: seq<seq<byte>>)
    requires InUseOrder(src, names, texts) && AllUsed(src, names, texts) && AllListed(src, names, texts)
    requires ReadString(src, last).Some? && ReadString(src, last).value in texts
    ensures var more := names + [last]; InUseOrder(src, more, texts) && AllUsed(src, more, texts) && AllListed(src, more, texts)
  {
    hide ReadString, IsFirstUse;
    var more := names + [last];
    UsesStay(src, names, last, texts);
    forall text | text in texts
      ensures IsUsed(src, more, text)
    {
      StaysUsed(src, names, last, text);
    }
  }

  lemma UsedThere(src: Block, names: seq<nat>, text: seq<byte>, place: nat)
    requires IsFirstUse(src, names, text, place)
    ensures place < |names| && exists name :: name in names && ReadString(src, name) == Some(text)
  {
    hide ReadString;
    assert names[place] in names;
  }

  lemma NewText(src: Block, names: seq<nat>, last: nat, texts: seq<seq<byte>>)
    requires InUseOrder(src, names, texts) && AllUsed(src, names, texts) && AllListed(src, names, texts)
    requires ReadString(src, last).Some? && ReadString(src, last).value !in texts
    ensures var more, all := names + [last], texts + [ReadString(src, last).value];
      InUseOrder(src, more, all) && AllUsed(src, more, all) && AllListed(src, more, all)
  {
    hide ReadString, IsFirstUse, InUseOrder, AllUsed;
    UsesStay(src, names, last, texts);
    NewIsUsed(src, names, last, texts);
    NewIsLast(src, names, last, texts);
  }

  lemma NewIsUsed(src: Block, names: seq<nat>, last: nat, texts: seq<seq<byte>>)
    requires AllUsed(src, names, texts) && AllListed(src, names, texts)
    requires ReadString(src, last).Some? && ReadString(src, last).value !in texts
    ensures AllUsed(src, names + [last], texts + [ReadString(src, last).value])
  {
    hide ReadString, IsFirstUse, AllListed;
    var text, more := ReadString(src, last).value, names + [last];
    assert IsFirstUse(src, more, text, |names|) ==> IsUsed(src, more, text);
    var all := texts + [text];
    LastIsFirstUse(src, names, last, texts, |names|);
    forall t | t in all
      ensures IsUsed(src, more, t)
    {
      if t in texts {
        StaysUsed(src, names, last, t);
      }
    }
  }

  lemma NewIsLast(src: Block, names: seq<nat>, last: nat, texts: seq<seq<byte>>)
    requires InUseOrder(src, names, texts) && AllUsed(src, names, texts) && AllListed(src, names, texts)
    requires ReadString(src, last).Some? && ReadString(src, last).value !in texts
    ensures InUseOrder(src, names + [last], texts + [ReadString(src, last).value])
  {
    hide ReadString, IsFirstUse, AllUsed, AllListed;
    var text, more := ReadString(src, last).value, names + [last];
    var all := texts + [text];
    UsesStay(src, names, last, texts);
    forall i: nat, j: nat, p: nat, q: nat | i < j < |all| && IsFirstUse(src, more, all[i], p) && IsFirstUse(src, more, all[j], q)
      ensures p < q
    {
      assert all[i] == texts[i];
      UsedThere(src, names, texts[i], p);
      if j == |texts| {
        LastIsFirstUse(src, names, last, texts, q);
      } else {
        assert all[j] == texts[j];
      }
    }
  }

  lemma LastIsFirstUse(src: Block, names: seq<nat>, last: nat, texts: seq<seq<byte>>, place: nat)
    requires AllListed(src, names, texts) && ReadString(src, last).Some? && ReadString(src, last).value !in texts
    ensures IsFirstUse(src, names + [last], ReadString(src, last).value, place) <==> place == |names|
  {
    hide ReadString;
    var more := names + [last];
    forall k | 0 <= k < |names|
      ensures ReadString(src, more[k]) != ReadString(src, last)
    {
      assert more[k] == names[k] && names[k] in names;
    }
  }

  // ----- places

  lemma {:induction false} FirstOfDistinct<T(!new)>(s: seq<T>, k: nat)
    requires Distinct(s) && k < |s|
    ensures First(s, s[k]) == k
    decreases k
  {
    if k > 0 {
      assert s[0] != s[k];
      FirstOfDistinct(s[1..], k - 1);
    }
  }

  /** In the block, the tables stand one right behind the other, sixteen bytes and eight for each entry. */
  lemma TablesAreBehind(src: Block, plan: Plan)
    requires PlanOf(src) == Some(plan)
    ensures plan.tables != [] && TableAt(src, plan, plan.tables[0]) == 0
    ensures forall k :: 0 < k < |plan.tables| ==>
      TableAt(src, plan, plan.tables[k]) == TableAt(src, plan, plan.tables[k - 1]) + 16 + 8 * EntryCount(src, plan.tables[k - 1])
    ensures var last := plan.tables[|plan.tables| - 1];
      TablesSize(src, plan.tables) == TableAt(src, plan, last) + 16 + 8 * EntryCount(src, last)
  {
    hide PlanOf, EntryCount, First, Tables, Leaves, Strings, Names, Closed, Counted;
    PlansAreMade(src);
    forall k: nat | k < |plan.tables|
      ensures TableAt(src, plan, plan.tables[k]) == TablesSize(src, plan.tables[..k])
    {
      FirstOfDistinct(plan.tables, k);
    }
    forall k: nat | k < |plan.tables|
      ensures TablesSize(src, plan.tables[..k + 1]) == TablesSize(src, plan.tables[..k]) + 16 + 8 * EntryCount(src, plan.tables[k])
    {
      assert plan.tables[..k + 1][..k] == plan.tables[..k];
    }
    assert plan.tables[..|plan.tables|] == plan.tables;
  }

  /** Behind the tables a record has sixteen bytes for each time it is listed, and stands in the last of these places. */
  lemma RecordsAreBehind(src: Block, plan: Plan, k: nat)
    requires k < |plan.leaves| && forall j :: k < j < |plan.leaves| ==> plan.leaves[j] != plan.leaves[k]
    ensures LeafAt(src, plan, plan.leaves[k]) == TablesSize(src, plan.tables) + 16 * k
  {
    hide Last, TablesSize;
    assert plan.leaves[k] in plan.leaves;
  }

  lemma TextPlace(src: Block, plan: Plan, k: nat)
    requires Distinct(plan.strings) && k < |plan.strings|
    ensures StringAt(src, plan, plan.strings[k])
         == TablesSize(src, plan.tables) + 16 * |plan.leaves| + |Concat(plan.strings[..k])|
  {
    hide First, TablesSize, Concat, Distinct;
    FirstOfDistinct(plan.strings, k);
  }

  lemma OneMoreText(texts: seq<seq<byte>>, k: nat)
    requires k < |texts|
    ensures |Concat(texts[..k + 1])| == |Concat(texts[..k])| + |texts[k]|
  {
    assert texts[..k + 1][..k] == texts[..k];
  }

  lemma TextsAreDistinct(src: Block, plan: Plan)
    requires PlanOf(src) == Some(plan)
    ensures Distinct(plan.strings)
  {
    hide PlanOf, Distinct, Tables, Leaves, Strings, Names, Closed, Counted, Entries;
    PlansAreMade(src);
  }

  /** The texts come last, one right behind the other. */
  lemma TextsAreBehind(src: Block, plan: Plan)
    requires PlanOf(src) == Some(plan)
    ensures plan.strings != [] ==>
      StringAt(src, plan, plan.strings[0]) == TablesSize(src, plan.tables) + 16 * |plan.leaves|
    ensures forall k :: 0 < k < |plan.strings| ==>
      StringAt(src, plan, plan.strings[k]) == StringAt(src, plan, plan.strings[k - 1]) + |plan.strings[k - 1]|
  {
    hide PlanOf, StringAt, Distinct, TablesSize, Concat;
    TextsAreDistinct(src, plan);
    if plan.strings != [] {
      TextPlace(src, plan, 0);
      assert Concat([]) == [] by { NoConcat(); }
    }
    forall k | 0 < k < |plan.strings|
      ensures StringAt(src, plan, plan.strings[k]) == StringAt(src, plan, plan.strings[k - 1]) + |plan.strings[k - 1]|
    {
      TextPlace(src, plan, k - 1);
      TextPlace(src, plan, k);
      OneMoreText(plan.strings, k - 1);
    }
  }

  lemma NoConcat()
    ensures Concat([]) == []
  {
  }
}
