/** The approver's queue of pending items and its cursor. */
module ApproverModel {
  import opened Wrappers
  import opened Seqs

  type Id = string

  datatype Kind = Diff | Request

  datatype Item = Item(kind: Kind, id: Id, body: string)

  /** An open code prompt, for the item it was opened on. */
  datatype Prompt = Prompt(item: Item, code: string)

  datatype Frame =
    | Added(item: Item)
    | Resolved(item: Item)
    | Expiring(key: string)
    | Ready

  // ---------- What the operations do to the queue ----------

  datatype Queue = Queue(order: seq<Id>, items: map<Id, Item>, selected: int, prompt: Option<Prompt>)

  const EMPTY := Queue([], map[], 0, None)

  ghost predicate Valid(q: Queue) {
    && NoDuplicates(q.order)
    && (forall id :: id in q.order <==> id in q.items)
    && (forall id <- q.items :: q.items[id].id == id)
    && 0 <= q.selected && (q.selected < |q.order| || (q.order == [] && q.selected == 0))
    && (q.prompt.Some? ==> q.prompt.value.item.id in q.items)
  }

  function IndexOf(order: seq<Id>, id: Id): (i: nat)
    requires id in order
    ensures i < |order| && order[i] == id && id !in order[..i]
  {
    if order[0] == id then 0 else 1 + IndexOf(order[1..], id)
  }

  function Upserted(q: Queue, item: Item): Queue {
    q.(order := if item.id in q.items then q.order else q.order + [item.id], items := q.items[item.id := item])
  }

  function Clamped(selected: int, length: nat): int {
    if selected >= length && selected > 0 then length - 1 else selected
  }

  function Removed(q: Queue, id: Id): Queue
    requires id in q.items ==> id in q.order
  {
    if id !in q.items then q
    else
      var i := IndexOf(q.order, id);
      var order := q.order[..i] + q.order[i + 1..];
      Queue(order, q.items - {id}, Clamped(if i < q.selected then q.selected - 1 else q.selected, |order|),
            if q.prompt.Some? && q.prompt.value.item.id == id then None else q.prompt)
  }

  function Applied(q: Queue, frame: Frame): Queue
    requires frame.Resolved? && frame.item.id in q.items ==> frame.item.id in q.order
  {
    match frame
    case Added(item) => Upserted(q, item)
    case Resolved(item) => Removed(q, item.id)
    case _ => q
  }

  function Moved(q: Queue, delta: int): Queue {
    if q.order == [] then q
    else
      var to := q.selected + delta;
      q.(selected := if to < 0 then 0 else if to >= |q.order| then |q.order| - 1 else to)
  }

  function Current(q: Queue): Option<Id> {
    if 0 <= q.selected < |q.order| then Some(q.order[q.selected]) else None
  }

  class Model {
    var order: seq<Id>
    var items: map<Id, Item>
    var selected: int
    var prompt: Option<Prompt>

    ghost function Contents(): Queue
      reads this
    {
      Queue(order, items, selected, prompt)
    }

    constructor ()
      ensures Contents() == EMPTY
    {
      order, items, selected, prompt := [], map[], 0, None;
    }

    method Upsert(item: Item)
      modifies this
      ensures Contents() == Upserted(old(Contents()), item)
    {
      if item.id !in items {
        order := order + [item.id];
      }
      items := items[item.id := item];
    }

    method Remove(id: Id)
      requires Valid(Contents())
      modifies this
      ensures Contents() == Removed(old(Contents()), id)
    {
      if id !in items {
        return;
      }
      if prompt.Some? && prompt.value.item.id == id {
        prompt := None;
      }
      items := items - {id};
      var i := Find(id);
      order := order[..i] + order[i + 1..];
      if i < selected {
        selected := selected - 1;
      }
      if selected >= |order| && selected > 0 {
        selected := |order| - 1;
      }
    }

    method Find(id: Id) returns (i: nat)
      requires id in order
      ensures i == IndexOf(order, id)
    {
      i := 0;
      while order[i] != id
        invariant i <= IndexOf(order, id)
        decreases |order| - i
      {
        i := i + 1;
      }
    }

    method Apply(frame: Frame)
      requires Valid(Contents())
      modifies this
      ensures Contents() == Applied(old(Contents()), frame)
    {
      match frame {
        case Added(item) => Upsert(item);
        case Resolved(item) => Remove(item.id);
        case Expiring(_) =>
        case Ready =>
      }
    }

    method MoveSelection(delta: int)
      modifies this
      ensures Contents() == Moved(old(Contents()), delta)
    {
      if |order| == 0 {
        return;
      }
      selected := selected + delta;
      if selected < 0 {
        selected := 0;
      }
      if selected >= |order| {
        selected := |order| - 1;
      }
    }

    /** The selected item; opening the prompt records it. */
    method OpenPrompt()
      requires Valid(Contents())
      modifies this
      ensures Valid(Contents())
      ensures match Current(old(Contents()))
              case None => Contents() == old(Contents())
              case Some(id) => Contents() == old(Contents()).(prompt := Some(Prompt(old(items)[id], "")))
    {
      if 0 <= selected < |order| {
        assert order[selected] in order;
        prompt := Some(Prompt(items[order[selected]], ""));
      }
    }
  }

  // ---------- What they keep ----------

  lemma AddKeepsQueue(q: Queue, item: Item)
    requires Valid(q)
    ensures var r := Upserted(q, item);
            && Valid(r) && r.items.Keys == q.items.Keys + {item.id} && r.items[item.id] == item
            && (forall id <- q.items | id != item.id :: r.items[id] == q.items[id])
            && r.order == q.order + (if item.id in q.order then [] else [item.id]) && r.prompt == q.prompt
            && (Current(q).Some? ==> Current(r) == Current(q))
            && (Current(q).None? ==> Current(r) == Some(item.id))
  {
  }

  lemma OrderWithout(order: seq<Id>, i: nat)
    requires i < |order| && NoDuplicates(order)
    ensures var rest := order[..i] + order[i + 1..];
            && NoDuplicates(rest) && forall id :: id in rest <==> id in order && id != order[i]
  {
    var rest := order[..i] + order[i + 1..];
    forall id | id in order && id != order[i] ensures id in rest {
      var j :| 0 <= j < |order| && order[j] == id;
      assert rest[if j < i then j else j - 1] == id;
    }
  }

  /** The order without its `i`th id, and the cursor moved as removal moves it. */
  lemma CursorAfter(order: seq<Id>, selected: int, i: nat)
    requires i < |order| && NoDuplicates(order) && 0 <= selected < |order|
    ensures var rest := order[..i] + order[i + 1..];
            var to := Clamped(if i < selected then selected - 1 else selected, |rest|);
            && 0 <= to && (rest == [] ==> to == 0) && (rest != [] ==> to < |rest|)
            && (selected != i ==> rest != [] && rest[to] == order[selected])
            && (selected == i && selected + 1 < |order| ==> rest != [] && rest[to] == order[selected + 1])
            && (selected == i && selected + 1 == |order| && selected > 0 ==> rest != [] && rest[to] == order[selected - 1])
            && (rest == [] <==> |order| == 1)
  {
  }

  lemma RemoveIsValid(q: Queue, id: Id)
    requires Valid(q)
    ensures Valid(Removed(q, id)) && Removed(q, id).items == q.items - {id}
  {
    if id in q.items {
      var i := IndexOf(q.order, id);
      OrderWithout(q.order, i);
      CursorAfter(q.order, q.selected, i);
    }
  }

  /** Where the cursor goes when the selected item is removed: to the next, or to the last if it was last. */
  function Successor(q: Queue): Option<Id> {
    if 0 <= q.selected && q.selected + 1 < |q.order| then Some(q.order[q.selected + 1])
    else if 0 < q.selected <= |q.order| then Some(q.order[q.selected - 1])
    else None
  }

  lemma RemoveMovesCursor(q: Queue, id: Id)
    requires id in q.order && id in q.items && NoDuplicates(q.order) && 0 <= q.selected < |q.order|
    ensures Current(Removed(q, id)) == if q.order[q.selected] == id then Successor(q) else Some(q.order[q.selected])
  {
    var i := IndexOf(q.order, id);
    CursorAfter(q.order, q.selected, i);
    SameIndex(q.order, i, q.selected);
  }

  function Except(id: Id): Id -> bool {
    (other: Id) => other != id
  }

  lemma OrderExcept(order: seq<Id>, i: nat)
    requires i < |order| && NoDuplicates(order)
    ensures Filter(order, Except(order[i])) == order[..i] + order[i + 1..]
  {
    assert order == order[..i] + [order[i]] + order[i + 1..];
    FilterAround(order[..i], order[i], order[i + 1..]);
  }

  lemma FilterAround(a: seq<Id>, id: Id, b: seq<Id>)
    requires id !in a && id !in b
    ensures Filter(a + [id] + b, Except(id)) == a + b
  {
    FilterAppend(a + [id], b, Except(id));
    FilterSnoc(a, id, Except(id));
    FilterAll(a, Except(id));
    FilterAll(b, Except(id));
    assert a + [] == a;
  }

  /** Removing an item keeps the queue well formed and the others in their order, and closes the prompt if it
      is for that item; the cursor stays on the item it was on unless that is the one removed. */
  lemma RemoveKeepsQueue(q: Queue, id: Id)
    requires Valid(q)
    ensures Valid(Removed(q, id)) && Removed(q, id).items == q.items - {id}
    ensures Current(Removed(q, id)) == if Current(q) == Some(id) then Successor(q) else Current(q)
    ensures Removed(q, id).order == Filter(q.order, Except(id))
    ensures Removed(q, id).prompt == if q.prompt.Some? && q.prompt.value.item.id == id then None else q.prompt
  {
    RemoveIsValid(q, id);
    if id in q.items {
      RemoveMovesCursor(q, id);
      OrderExcept(q.order, IndexOf(q.order, id));
    } else {
      FilterAll(q.order, Except(id));
      assert q.prompt.Some? ==> q.prompt.value.item.id != id;
      assert Current(q) != Some(id);
    }
  }

  lemma SameIndex(order: seq<Id>, i: nat, j: int)
    requires NoDuplicates(order) && i < |order| && 0 <= j < |order|
    ensures order[i] == order[j] <==> i == j
  {
  }

  function Folded(q: Queue, frames: seq<Frame>): Queue
    requires Valid(q)
    ensures Valid(Folded(q, frames))
  {
    if frames == [] then q
    else
      var before := Folded(q, frames[..|frames| - 1]);
      var frame := frames[|frames| - 1];
      AppliedKeepsQueue(before, frame);
      Applied(before, frame)
  }

  lemma AppliedKeepsQueue(q: Queue, frame: Frame)
    requires Valid(q)
    ensures Valid(Applied(q, frame))
    ensures Current(q).Some? && !(frame.Resolved? && Current(q) == Some(frame.item.id)) ==> Current(Applied(q, frame)) == Current(q)
  {
    match frame
    case Added(item) => AddKeepsQueue(q, item);
    case Resolved(item) => RemoveKeepsQueue(q, item.id);
    case _ =>
  }

  /** However many events arrive, the cursor stays on the same item unless that item is resolved. */
  lemma {:induction false} CursorStays(q: Queue, frames: seq<Frame>, id: Id)
    requires Valid(q) && Current(q) == Some(id)
    requires forall f <- frames :: f.Resolved? ==> f.item.id != id
    ensures Current(Folded(q, frames)) == Some(id)
  {
    if frames != [] {
      var rest := frames[..|frames| - 1];
      CursorStays(q, rest, id);
      AppliedKeepsQueue(Folded(q, rest), frames[|frames| - 1]);
    }
  }

  predicate Nearest(order: seq<Id>, selected: int, goal: int) {
    forall i | 0 <= i < |order| :: NoNearer(i, selected, goal)
  }

  predicate NoNearer(i: int, j: int, goal: int) {
    (if j < goal then goal - j else j - goal) <= if i < goal then goal - i else i - goal
  }

  /** Moving the cursor takes it to the place on the list nearest to where the move leads, and changes nothing
      else; a move and its opposite cancel unless an end was hit. */
  lemma MoveStaysOnList(q: Queue, delta: int)
    requires Valid(q)
    ensures Valid(Moved(q, delta)) && Moved(q, delta) == q.(selected := Moved(q, delta).selected)
    ensures Nearest(q.order, Moved(q, delta).selected, q.selected + delta)
    ensures 0 <= q.selected + delta < |q.order| ==> Moved(Moved(q, delta), -delta) == q
  {
  }

  lemma {:induction false} FoldedAppend(q: Queue, a: seq<Frame>, b: seq<Frame>)
    requires Valid(q)
    ensures Folded(q, a + b) == Folded(Folded(q, a), b)
  {
    if b == [] {
      assert a + b == a;
    } else {
      FoldedAppend(q, a, b[..|b| - 1]);
      assert (a + b)[..|a + b| - 1] == a + b[..|b| - 1];
    }
  }
}
