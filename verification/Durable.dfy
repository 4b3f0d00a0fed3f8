/** A directory that a power cut can catch between a change and the sync that
    makes it durable. Nothing orders one unsynced change against another: each
    name comes back as any of the things it was since the last sync. */
module Durable {
  import opened Words

  /** What a name stands for. A file whose bytes were never synced can come
      back with any bytes. */
  datatype Node<C> = File(content: C, synced: bool) | Folder

  /** `live` is what the process sees; `lost` what else a name may come back
      as. */
  datatype Dir<!N(==), C(==)> = Dir(live: map<N, Node<C>>, lost: map<N, set<Option<Node<C>>>>)

  ghost function Get<N, C>(d: Dir<N, C>, n: N): Option<Node<C>> {
    if n in d.live then Some(d.live[n]) else None
  }

  ghost function Possible<N, C>(d: Dir<N, C>, n: N): set<Option<Node<C>>> {
    {Get(d, n)} + if n in d.lost then d.lost[n] else {}
  }

  ghost function Put<N, C>(d: Dir<N, C>, n: N, node: Node<C>): Dir<N, C> {
    Dir(d.live[n := node], d.lost[n := Possible(d, n)])
  }

  ghost function Remove<N, C>(d: Dir<N, C>, n: N): Dir<N, C> {
    Dir(d.live - {n}, d.lost[n := Possible(d, n)])
  }

  ghost function Rename<N, C>(d: Dir<N, C>, from: N, to: N): Dir<N, C>
    requires from in d.live
  {
    Put(Remove(d, from), to, d.live[from])
  }

  ghost function SyncDir<N, C>(d: Dir<N, C>): Dir<N, C> {
    Dir(d.live, map[])
  }

  /** What `node` may be once the power is back. */
  ghost predicate Survives<C>(node: Option<Node<C>>, back: Option<Node<C>>) {
    match node
    case None => back.None?
    case Some(Folder) => back == node
    case Some(File(content, synced)) =>
      back.Some? && back.value.File? && back.value.synced && (synced ==> back.value.content == content)
  }

  ghost predicate ComesBack<N, C>(d: Dir<N, C>, n: N, back: Option<Node<C>>) {
    exists node :: node in Possible(d, n) && Survives(node, back)
  }

  ghost predicate Crashed<N(!new), C(!new)>(d: Dir<N, C>, after: Dir<N, C>) {
    after.lost == map[] && forall n :: ComesBack(d, n, Get(after, n))
  }

  /** Whatever happens, `n` is this file, with its bytes. */
  ghost predicate Certain<N, C>(d: Dir<N, C>, n: N, content: C) {
    forall node | node in Possible(d, n) :: node == Some(File(content, true))
  }

  lemma CertainNow<N, C>(d: Dir<N, C>, n: N, content: C)
    requires Certain(d, n, content)
    ensures n in d.live && d.live[n] == File(content, true)
  {
    assert Get(d, n) in Possible(d, n);
  }

  lemma CertainSurvives<N(!new), C(!new)>(d: Dir<N, C>, after: Dir<N, C>, n: N, content: C)
    requires Certain(d, n, content) && Crashed(d, after)
    ensures Certain(after, n, content)
  {
    assert ComesBack(d, n, Get(after, n));
    assert Possible(after, n) == {Get(after, n)};
  }

  ghost function Hardened<C>(node: Node<C>): Node<C> {
    if node.File? then File(node.content, true) else node
  }

  /** A power cut that keeps everything the process saw. */
  lemma Rebooted<N(!new), C(!new)>(d: Dir<N, C>) returns (after: Dir<N, C>)
    ensures Crashed(d, after) && after.live.Keys == d.live.Keys
    ensures forall n | n in d.live :: after.live[n] == Hardened(d.live[n])
  {
    after := Dir(map n | n in d.live :: Hardened(d.live[n]), map[]);
    forall n ensures ComesBack(d, n, Get(after, n)) {
      assert Get(d, n) in Possible(d, n) && Survives(Get(d, n), Get(after, n));
    }
  }

  /** A power cut that keeps everything the process saw but one name, which
      can come back absent. */
  lemma RebootedWithout<N(!new), C(!new)>(d: Dir<N, C>, gone: N) returns (after: Dir<N, C>)
    requires None in Possible(d, gone)
    ensures Crashed(d, after) && after.live.Keys == d.live.Keys - {gone}
    ensures forall n | n in d.live && n != gone :: after.live[n] == Hardened(d.live[n])
  {
    after := Dir(map n | n in d.live && n != gone :: Hardened(d.live[n]), map[]);
    forall n ensures ComesBack(d, n, Get(after, n)) {
      var node := if n == gone then None else Get(d, n);
      assert node in Possible(d, n) && Survives(node, Get(after, n));
    }
  }
}
