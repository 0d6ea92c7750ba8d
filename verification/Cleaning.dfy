/** What the cleaner removes from the three maps of the storage, over any run. */
module Cleaning {
  import opened Records
  import opened Lifecycle

  datatype Store = Infos | Children | Processed

  function Keys(s: State, store: Store): set<Id> {
    match store
    case Infos => s.infos.Keys
    case Children => s.children.Keys
    case Processed => s.processed.Keys
  }

  predicate Marks(e: Event, store: Store) {
    match store
    case Infos => e.MarkInfos?
    case Children => e.MarkChildren?
    case Processed => e.MarkProcessed?
  }

  predicate Cleans(e: Event, store: Store) {
    match store
    case Infos => e.CleanInfos?
    case Children => e.CleanChildren?
    case Processed => e.CleanProcessed?
  }

  function MarksOf(s: State, store: Store): set<Id> {
    match store
    case Infos => s.infoMarks
    case Children => s.childMarks
    case Processed => s.processedMarks
  }

  /** The keys that were there at a mark since the last clean. */
  function SeenAtMark(threshold: Time, es: seq<Event>, store: Store): set<Id> {
    if es == [] then {} else
    var front, e := es[..|es| - 1], es[|es| - 1];
    if Cleans(e, store) then {}
    else if Marks(e, store) then SeenAtMark(threshold, front, store) + Keys(Run(Init(threshold), front), store)
    else SeenAtMark(threshold, front, store)
  }

  lemma {:induction false} MarksStep(s: State, e: Event, store: Store)
    ensures MarksOf(Step(s, e), store) ==
      if Cleans(e, store) then {}
      else if Marks(e, store) then MarksOf(s, store) + Keys(s, store)
      else MarksOf(s, store)
  {
  }

  lemma {:induction false} MarksExact(threshold: Time, es: seq<Event>, store: Store)
    ensures MarksOf(Run(Init(threshold), es), store) == SeenAtMark(threshold, es, store)
  {
    hide Step;
    if es != [] {
      MarksExact(threshold, es[..|es| - 1], store);
      MarksStep(Run(Init(threshold), es[..|es| - 1]), es[|es| - 1], store);
    }
  }

  lemma {:induction false} CleanStep(s: State, e: Event, store: Store)
    ensures Cleans(e, store) ==> Keys(Step(s, e), store) == Keys(s, store) - MarksOf(s, store)
    ensures !Cleans(e, store) ==> Keys(s, store) <= Keys(Step(s, e), store)
  {
  }

  /**
   In every run a clean removes from a map exactly the keys that were there at a mark since
   the clean before it, and nothing else ever removes a key.
   */
  lemma {:induction false} CleanedExactly(threshold: Time, es: seq<Event>, e: Event, store: Store)
    ensures var s := Run(Init(threshold), es);
      if Cleans(e, store) then Keys(Step(s, e), store) == Keys(s, store) - SeenAtMark(threshold, es, store)
      else Keys(s, store) <= Keys(Step(s, e), store)
  {
    hide Run, Step, SeenAtMark;
    MarksExact(threshold, es, store);
    CleanStep(Run(Init(threshold), es), e, store);
  }

  /** What a clean leaves it leaves unchanged. */
  lemma {:induction false} SurvivorsUnchanged(s: State, e: Event, c: Id)
    requires e.CleanInfos? || e.CleanChildren? || e.CleanProcessed?
    ensures c in Step(s, e).infos ==> c in s.infos && Step(s, e).infos[c] == s.infos[c]
    ensures c in Step(s, e).children ==> c in s.children && Step(s, e).children[c] == s.children[c]
    ensures c in Step(s, e).processed ==> c in s.processed && Step(s, e).processed[c] == s.processed[c]
  {
  }
}
