/** The service's `forget`, over the store and the index tables it drives. */
module Service {
  import opened Prelude
  import opened Records
  import opened Transactions
  import opened Store
  import opened GraphStore
  import opened Forget
  import Graph
  import Lexical

  class MemoryService {
    const store: SqlMemoryStore
    const lexical: Lexical.MemoryLexicalIndex
    const graph: MemoryGraphStore
    var vectors: map<Id, Key>

    constructor ()
      ensures lexical.Valid() && fresh(store) && fresh(lexical) && fresh(graph)
      ensures View() == NEW_SYSTEM
    {
      store := new SqlMemoryStore();
      lexical := new Lexical.MemoryLexicalIndex();
      graph := new MemoryGraphStore();
      vectors := map[];
    }

    ghost function View(): System
      reads this, store, lexical, graph
    {
      System(store.View(), lexical.texts, vectors, graph.View())
    }

    /** The process may stop after any number of writing stages, and the deletion of the managed source may
        fail; `done` says that the memory is gone. */
    method Forget(a: Attempt) returns (done: bool)
      requires lexical.Valid()
      modifies this, store, lexical, graph
      ensures lexical.Valid()
      ensures View() == Forgotten(old(View()), a) && done == Completes(old(store.View()), a)
    {
      done := false;
      if a.id !in store.records { return; }
      var own := store.records[a.id].key;
      if own.user != a.key.user { return; }
      if a.key.workspace != "" && own.workspace != "" && own.workspace != a.key.workspace { return; }
      if a.managed && !a.forgetter { return; }
      if a.stop == 0 { return; }
      var _ := store.BeginForget(a.id, own, a.now);
      if a.managed && !a.sourceOk { return; }
      RemoveDerived(a.id, own, a.stop);
      if a.stop < STAGES { return; }
      DeleteRecord(a.id, own);
      done := true;
    }

    /** The deletion of the record, with ON DELETE CASCADE of the tables that hang on it. */
    method DeleteRecord(id: Id, own: Key)
      requires lexical.Valid()
      modifies this, store, lexical
      ensures lexical.Valid() && View() == Deleted(old(View()), id, own)
    {
      var _ := store.ForgetMemory(id, own);
      lexical.Cascade(id);
      vectors := vectors - {id};
    }

    /** The vector, text and graph stages, as far as the process gets. */
    method RemoveDerived(id: Id, own: Key, stop: nat)
      requires lexical.Valid()
      modifies this, lexical, graph
      ensures lexical.Valid()
      ensures vectors == if stop >= 3 then VectorsWithout(old(vectors), id, own) else old(vectors)
      ensures lexical.texts ==
        if stop >= 4 then Lexical.Perform(old(lexical.texts), Lexical.RemoveOp(id, own)) else old(lexical.texts)
      ensures graph.View() == if stop >= 5 then Graph.Remove(old(graph.View()), own, id) else old(graph.View())
    {
      if stop < 3 { return; }
      vectors := map m | m in vectors && !(m == id && vectors[m] == own) :: vectors[m];
      if stop < 4 { return; }
      lexical.RemoveMemory(id, own);
      if stop < 5 { return; }
      graph.RemoveMemory(own, id);
    }
  }
}
