/** Compiled memory items, the edges between them, and the store that holds both. */
module Memory {
  import opened Ordering
  import opened Wrappers

  datatype Namespace = User | Team | Project | AppState

  datatype Relation = Supersedes | Contradicts | Supports | DerivedFrom

  /** A claim as the resolver reads it: its tokens less the stop words, and whether it is
      free of negation cues. */
  datatype Claim = Claim(words: set<string>, positive: bool)

  /** An item without its active flag, which is the one column that is ever updated. */
  datatype MemoryItem = MemoryItem(
    memoryId: string, namespace: Namespace, subject: Option<string>, claim: Claim,
    confidence: real, createdAt: int, acl: string)

  datatype Edge = Edge(src: string, dst: string, relation: Relation)

  /** The two tables: items and their flags by id, and the edges keyed by all three columns. */
  datatype Tables = Tables(items: map<string, MemoryItem>, active: map<string, bool>, edges: set<Edge>)

  ghost predicate WellKeyed(items: map<string, MemoryItem>) {
    forall id :: id in items ==> items[id].memoryId == id
  }

  ghost predicate Consistent(t: Tables) {
    WellKeyed(t.items) && t.active.Keys == t.items.Keys
  }

  /** Adding is a no-op for an id already present; otherwise the item arrives with its flag. */
  function AddItem(t: Tables, item: MemoryItem, flag: bool): Tables {
    if item.memoryId in t.items then t
    else t.(items := t.items[item.memoryId := item], active := t.active[item.memoryId := flag])
  }

  /** Updating the flag of an id that is not there changes nothing. */
  function WithFlag(active: map<string, bool>, id: string, flag: bool): map<string, bool> {
    if id in active then active[id := flag] else active
  }

  predicate CreatedLe(a: MemoryItem, b: MemoryItem) {
    a.createdAt <= b.createdAt
  }

  /** A listing of the item table: every row once. */
  ghost predicate Lists(rows: seq<MemoryItem>, items: map<string, MemoryItem>) {
    && NoDuplicates(rows)
    && (forall x :: x in rows <==> x.memoryId in items && items[x.memoryId] == x)
  }

  /** The rows a listing shows. */
  ghost function Visible(t: Tables, activeOnly: bool): (m: map<string, MemoryItem>)
    requires Consistent(t)
    ensures WellKeyed(m)
    ensures !activeOnly ==> m == t.items
  {
    map id | id in t.items && (activeOnly ==> t.active[id]) :: t.items[id]
  }

  lemma ListsOneMore(rows: seq<MemoryItem>, items: map<string, MemoryItem>, left: set<string>, id: string)
    requires WellKeyed(items) && left <= items.Keys && id in left && Lists(rows, items - left)
    ensures Lists(rows + [items[id]], items - (left - {id}))
  {
  }

  class MemoryStore {
    var items: map<string, MemoryItem>
    var active: map<string, bool>
    var edges: set<Edge>

    ghost function View(): Tables
      reads this
    {
      Tables(items, active, edges)
    }

    constructor ()
      ensures View() == Tables(map[], map[], {})
    {
      items, active, edges := map[], map[], {};
    }

    method Add(item: MemoryItem, flag: bool) returns (id: string)
      modifies this
      ensures View() == AddItem(old(View()), item, flag)
      ensures id == item.memoryId && id in items
    {
      if item.memoryId !in items {
        items := items[item.memoryId := item];
        active := active[item.memoryId := flag];
      }
      id := item.memoryId;
    }

    /** An edge insert replaces the row with the same three key columns, if there is one. */
    method AddEdge(src: string, dst: string, relation: Relation)
      modifies this`edges
      ensures edges == old(edges) + {Edge(src, dst, relation)}
    {
      edges := edges + {Edge(src, dst, relation)};
    }

    method SetActive(id: string, flag: bool)
      modifies this`active
      ensures active == WithFlag(old(active), id, flag)
    {
      if id in active {
        active := active[id := flag];
      }
    }

    /** Rows ordered by creation time; rows created at the same time come in any order. */
    method AllItems(activeOnly: bool) returns (rows: seq<MemoryItem>)
      requires Consistent(View())
      ensures forall i, j :: 0 <= i < j < |rows| ==> rows[i].createdAt <= rows[j].createdAt
      ensures Lists(rows, Visible(View(), activeOnly))
    {
      var left := set id | id in items && (activeOnly ==> active[id]);
      ghost var wanted := Visible(View(), activeOnly);
      rows := [];
      while left != {}
        invariant left <= wanted.Keys
        invariant Lists(rows, wanted - left)
        decreases left
      {
        var id :| id in left;
        ListsOneMore(rows, wanted, left, id);
        left := left - {id};
        rows := rows + [items[id]];
      }
      assert wanted - left == wanted;
      SortFacts(rows, CreatedLe);
      rows := Sort(rows, CreatedLe);
    }
  }
}
