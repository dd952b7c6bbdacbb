/** The linked lists of the server: `prev`/`next` fields of numbered records, with the
    sequence of records they link up. */
module LinkedLists {
  import opened Bytes

  type Id = nat

  datatype Links = Links(prev: Option<Id>, next: Option<Id>)

  /** A list head and the link fields of all records. */
  datatype List = List(head: Option<Id>, links: map<Id, Links>)

  function At(s: seq<Id>, i: int): Option<Id> { if 0 <= i < |s| then Some(s[i]) else None }

  predicate Distinct(s: seq<Id>) { forall i, j | 0 <= i < j < |s| :: s[i] != s[j] }

  /** Following `next` from the head gives exactly `s`, and `prev` leads back. */
  ghost predicate Chain(l: List, s: seq<Id>)
  {
    && l.head == At(s, 0) && Distinct(s)
    && (forall i | 0 <= i < |s| :: s[i] in l.links)
    && (forall i {:trigger l.links[s[i]]} | 0 <= i < |s| :: l.links[s[i]] == Links(At(s, i - 1), At(s, i + 1)))
  }

  /** A list linked through `next` only. */
  ghost predicate FreeChain(l: List, s: seq<Id>)
  {
    && l.head == At(s, 0) && Distinct(s)
    && (forall i | 0 <= i < |s| :: s[i] in l.links)
    && (forall i {:trigger l.links[s[i]].next} | 0 <= i < |s| :: l.links[s[i]].next == At(s, i + 1))
  }

  function SetNext(links: map<Id, Links>, c: Id, n: Option<Id>): map<Id, Links>
  {
    if c in links then links[c := links[c].(next := n)] else links
  }

  function SetPrev(links: map<Id, Links>, c: Id, p: Option<Id>): map<Id, Links>
  {
    if c in links then links[c := links[c].(prev := p)] else links
  }

  /** `c->next = head; c->prev = NULL; if (head) head->prev = c; head = c;` */
  function PushFront(l: List, c: Id): List
  {
    var links := l.links[c := Links(None, l.head)];
    List(Some(c), if l.head.Some? then SetPrev(links, l.head.value, Some(c)) else links)
  }

  /** The neighbours of `c` are joined around it; `c` keeps its own pointers. */
  function Bypass(l: List, c: Id): List
    requires c in l.links
  {
    var Links(p, n) := l.links[c];
    var links := if p.Some? then SetNext(l.links, p.value, n) else l.links;
    List(if p.None? && l.head == Some(c) then n else l.head,
         if n.Some? then SetPrev(links, n.value, p) else links)
  }

  function IndexOf(s: seq<Id>, c: Id): (i: nat)
    requires c in s
    ensures i < |s| && s[i] == c
  {
    if s[0] == c then 0 else 1 + IndexOf(s[1..], c)
  }

  function Remove(s: seq<Id>, c: Id): seq<Id>
    requires c in s
  {
    s[..IndexOf(s, c)] + s[IndexOf(s, c) + 1..]
  }

  lemma RemoveFacts(s: seq<Id>, c: Id)
    requires c in s && Distinct(s)
    ensures Distinct(Remove(s, c)) && |Remove(s, c)| == |s| - 1
    ensures forall x :: x in Remove(s, c) <==> x in s && x != c
  {
    var k, r := IndexOf(s, c), Remove(s, c);
    forall x | x in s && x != c
      ensures x in r
    {
      var i :| 0 <= i < |s| && s[i] == x;
      assert r[if i < k then i else i - 1] == x;
    }
    assert forall i | 0 <= i < |r| :: r[i] == s[if i < k then i else i + 1];
  }

  lemma PushFrontChain(l: List, s: seq<Id>, c: Id)
    requires Chain(l, s) && c !in s
    ensures Chain(PushFront(l, c), [c] + s)
  {
  }

  lemma RemoveAt(s: seq<Id>, c: Id, i: int)
    requires c in s
    ensures At(Remove(s, c), i) == At(s, if i < IndexOf(s, c) then i else i + 1)
  {
  }

  /** What joining the neighbours does to any one record. */
  lemma BypassAt(l: List, c: Id, x: Id)
    requires c in l.links && x in l.links
    ensures x in Bypass(l, c).links
    ensures var Links(p, n) := l.links[c];
            Bypass(l, c).links[x] ==
            Links(if n == Some(x) then p else l.links[x].prev, if p == Some(x) then n else l.links[x].next)
  {
  }

  /** The pointers of one surviving element. */
  lemma BypassOne(l: List, s: seq<Id>, c: Id, j: nat)
    requires Chain(l, s) && c in s && j < |s| && s[j] != c
    ensures s[j] in Bypass(l, c).links
    ensures var k := IndexOf(s, c) as int;
            Bypass(l, c).links[s[j]] ==
            Links(At(s, if j == k + 1 then j - 2 else j - 1), At(s, if j == k - 1 then j + 2 else j + 1))
  {
    hide IndexOf, Bypass;
    var k: int := IndexOf(s, c);
    assert l.links[s[k]] == Links(At(s, k - 1), At(s, k + 1));
    assert l.links[s[j]] == Links(At(s, j - 1), At(s, j + 1));
    BypassAt(l, c, s[j]);
    assert At(s, k + 1) == Some(s[j]) <==> j == k + 1;
    assert At(s, k - 1) == Some(s[j]) <==> j == k - 1;
  }

  lemma BypassLink(l: List, s: seq<Id>, c: Id, i: nat)
    requires Chain(l, s) && c in s && i < |s| - 1
    ensures |Remove(s, c)| == |s| - 1
    ensures var r := Remove(s, c);
            r[i] in Bypass(l, c).links && Bypass(l, c).links[r[i]] == Links(At(r, i - 1), At(r, i + 1))
  {
    hide Bypass, Chain;
    var k: int := IndexOf(s, c);
    RemoveAt(s, c, i);
    RemoveAt(s, c, i - 1);
    RemoveAt(s, c, i + 1);
    ChainDistinct(l, s);
    BypassOne(l, s, c, if i < k then i else i + 1);
  }

  lemma ChainDistinct(l: List, s: seq<Id>)
    requires Chain(l, s)
    ensures Distinct(s)
  {
  }

  /** Joining the neighbours of an element removes exactly that element. */
  lemma BypassChain(l: List, s: seq<Id>, c: Id)
    requires Chain(l, s) && c in s
    ensures Chain(Bypass(l, c), Remove(s, c))
  {
    RemoveFacts(s, c);
    hide Remove, IndexOf, Bypass;
    forall i | 0 <= i < |s| - 1
      ensures var r := Remove(s, c);
              r[i] in Bypass(l, c).links && Bypass(l, c).links[r[i]] == Links(At(r, i - 1), At(r, i + 1))
    {
      BypassLink(l, s, c, i);
    }
    BypassHead(l, s, c);
    RemoveAt(s, c, 0);
  }

  lemma BypassHead(l: List, s: seq<Id>, c: Id)
    requires Chain(l, s) && c in s
    ensures Bypass(l, c).head == At(s, if IndexOf(s, c) == 0 then 1 else 0)
  {
    var k: int := IndexOf(s, c);
    assert l.links[s[k]] == Links(At(s, k - 1), At(s, k + 1));
  }

  /** Links of records outside the list do not matter. */
  lemma ChainFrame(l: List, m: List, s: seq<Id>)
    requires Chain(l, s) && m.head == l.head
    requires forall x | x in s :: x in m.links && m.links[x] == l.links[x]
    ensures Chain(m, s)
  {
    assert forall i | 0 <= i < |s| :: s[i] in s;
  }

  lemma FreeChainFrame(l: List, m: List, s: seq<Id>)
    requires FreeChain(l, s) && m.head == l.head
    requires forall x | x in s :: x in m.links && m.links[x] == l.links[x]
    ensures FreeChain(m, s)
  {
    assert forall i | 0 <= i < |s| :: s[i] in s;
  }

  /** Only the element and its neighbours are touched. */
  lemma BypassFrame(l: List, s: seq<Id>, c: Id)
    requires Chain(l, s) && c in s
    ensures Bypass(l, c).links.Keys == l.links.Keys
    ensures forall x | x in l.links && x !in s :: Bypass(l, c).links[x] == l.links[x]
  {
    var k: int := IndexOf(s, c);
    assert l.links[s[k]] == Links(At(s, k - 1), At(s, k + 1));
    forall x | x in l.links && x !in s
      ensures Bypass(l, c).links[x] == l.links[x]
    {
      BypassAt(l, c, x);
    }
  }

  lemma PushFrontFrame(l: List, s: seq<Id>, c: Id)
    requires Chain(l, s)
    ensures PushFront(l, c).links.Keys == l.links.Keys + {c}
    ensures forall x | x in l.links && x !in s && x != c :: PushFront(l, c).links[x] == l.links[x]
  {
  }
}
