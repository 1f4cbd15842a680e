/**
  The built-in actions' registration (`src/actions/actions/mod.rs`): the
  history plugin registers `set_from_history`, then the basic input plugin
  registers `delete_char` and `delete_word`, all three in the action cache.
 */
module ActionsPlugin {
  import opened Keys
  import opened ConsoleActions
  import opened ActionRegistry
  import History
  import BasicInput

  /** The systems the built-in actions run. */
  datatype ActionSystem = SetFromHistory | DeleteChar | DeleteWord

  /** The actions plugin: the history plugin's registration, then the basic input plugin's two. */
  function RegisterBuiltinActions(w: ActionWorld<Key, KeyCode, ActionSystem>): (r: ActionWorld<Key, KeyCode, ActionSystem>)
    requires Valid(w)
    ensures Valid(r)
    ensures CacheOf(r).Keys
         == CacheOf(w).Keys + {History.HistorySpec(), BasicInput.DeleteCharSpec(), BasicInput.DeleteWordSpec()}
    ensures r.observers[CacheOf(r)[History.HistorySpec()]] == SetFromHistory
    ensures r.observers[CacheOf(r)[BasicInput.DeleteCharSpec()]] == DeleteChar
    ensures r.observers[CacheOf(r)[BasicInput.DeleteWordSpec()]] == DeleteWord
    ensures |r.observers| == |w.observers| + 3
  {
    BuiltinSpecsDistinct();
    var history := History.HistorySpec();
    var deleteChar := BasicInput.DeleteCharSpec();
    var deleteWord := BasicInput.DeleteWordSpec();
    RegisterThree(w, history, SetFromHistory, deleteChar, DeleteChar, deleteWord, DeleteWord);
    Register(Register(Register(w, history, SetFromHistory), deleteChar, DeleteChar), deleteWord, DeleteWord)
  }

  /** The three built-in actions are different cache keys. */
  lemma BuiltinSpecsDistinct()
    ensures History.HistorySpec() != BasicInput.DeleteCharSpec()
    ensures History.HistorySpec() != BasicInput.DeleteWordSpec()
    ensures BasicInput.DeleteCharSpec() != BasicInput.DeleteWordSpec()
  {
    assert History.HistorySpec().keys[0][0] == ArrowUp;
    assert BasicInput.DeleteCharSpec().keys[0][0] == Backspace;
    assert BasicInput.DeleteWordSpec().keys[0][0] == Backspace;
    assert BasicInput.DeleteCharSpec().modifiers == [];
    assert BasicInput.DeleteWordSpec().modifiers != [];
  }

  /** Three registrations of different actions: each keeps its own observer, and the world stays well formed. */
  lemma RegisterThree<K, M, S>(w: ActionWorld<K, M, S>, a1: ConsoleAction<K, M>, s1: S, a2: ConsoleAction<K, M>, s2: S, a3: ConsoleAction<K, M>, s3: S)
    requires Valid(w) && a1 != a2 && a1 != a3 && a2 != a3
    ensures var r := Register(Register(Register(w, a1, s1), a2, s2), a3, s3);
            && Valid(r)
            && CacheOf(r).Keys == CacheOf(w).Keys + {a1, a2, a3}
            && r.observers[CacheOf(r)[a1]] == s1
            && r.observers[CacheOf(r)[a2]] == s2
            && r.observers[CacheOf(r)[a3]] == s3
            && |r.observers| == |w.observers| + 3
  {
    var w1 := Register(w, a1, s1);
    assert Valid(w1) && CacheOf(w1)[a1] == w.nextEntity && w1.observers[w.nextEntity] == s1;
    var w2 := Register(w1, a2, s2);
    RegisterKeepsOthers(w1, a2, s2, a1);
    assert Valid(w2) && CacheOf(w2)[a2] == w1.nextEntity && w2.observers[w1.nextEntity] == s2;
    var w3 := Register(w2, a3, s3);
    RegisterKeepsOthers(w2, a3, s3, a1);
    RegisterKeepsOthers(w2, a3, s3, a2);
    assert Valid(w3) && CacheOf(w3)[a3] == w2.nextEntity && w3.observers[w2.nextEntity] == s3;
  }

  /** One registration leaves another action's entry, and the observer it points at, as they were. */
  lemma RegisterKeepsOthers<K, M, S>(w: ActionWorld<K, M, S>, a: ConsoleAction<K, M>, s: S, b: ConsoleAction<K, M>)
    requires Valid(w) && b in CacheOf(w) && b != a
    ensures var r := Register(w, a, s);
            && b in CacheOf(r) && CacheOf(r)[b] == CacheOf(w)[b]
            && r.observers[CacheOf(r)[b]] == w.observers[CacheOf(w)[b]]
  {
  }
}
