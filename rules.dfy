/** The fixed rewrite table of (part of speech, relation) pairs that mark
    a function word. */
module Rules {
  import opened Conll

  const Target: seq<(string, string)> := [
    ("ADP", "case"),
    ("ADP", "mark"),
    ("ADP", "dep"),
    ("SCONJ", "mark"),
    ("ADV", "mark"),
    ("PART", "case"),
    ("PART", "mark")
  ]

  predicate IsFunctionWord(t: Token)
  {
    (t.upos, t.deprel) in Target
  }

  /** A function word is never the root and never a part of a multi-word
      expression, so neither kind of token is ever chosen by the table. */
  lemma FunctionWordRelations(t: Token)
    ensures IsFunctionWord(t) ==> t.deprel in {"case", "mark", "dep"}
    ensures IsFunctionWord(t) ==> t.deprel != "root" && t.deprel != "mwe"
  {
    if IsFunctionWord(t) {
      var j :| 0 <= j < |Target| && Target[j] == (t.upos, t.deprel);
      assert j in {0, 1, 2, 3, 4, 5, 6};
    }
  }
}
