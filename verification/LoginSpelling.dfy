/** Which requests share a counter: the spellings of one identifier, in attempts and in resets. */
module LoginSpelling {
  import opened Text
  import opened LogFields
  import opened RedisServer
  import opened Clients
  import opened LoginBackoff
  import opened LoginRuns
  import opened LoginBurst

  /** Two attempts are on one identifier counter exactly when their identifiers, without outer white space,
      are not empty and the same but for case; the counter then sees both. */
  lemma SpellingsShareCounter(cfg: Config, db: Db, a: BeforeLogin, u: string, b: BeforeLogin, v: string, corr: string)
    requires Validated(cfg) && GoodDb(cfg, db) && Unspaced(a.identifier, u) && Unspaced(b.identifier, v)
    ensures var e, f := AttemptEvent(a, corr, NoFault), AttemptEvent(b, corr, NoFault);
      && ((exists id :: Names(e, IdentifierKey(id)) && Names(f, IdentifierKey(id))) <==> u != "" && SameButCase(u, v))
      && forall id | Names(e, IdentifierKey(id)) ::
           CountIn(CellOf(Step(cfg, Step(cfg, db, e), f), IdentifierKey(id))) ==
             CountIn(CellOf(db, IdentifierKey(id))) + if SameButCase(u, v) then 2 else 1
  {
    hide NormaliseIdentifier, TrimSpace, SameButCase, Unspaced, Step, GoodDb, CellOf;
    var e, f := AttemptEvent(a, corr, NoFault), AttemptEvent(b, corr, NoFault);
    NormaliseDecides(a.identifier, u, b.identifier, v);
    if u != "" && SameButCase(u, v) {
      assert Names(e, IdentifierKey(e.id)) && Names(f, IdentifierKey(e.id));
    }
    forall id | Names(e, IdentifierKey(id))
      ensures CountIn(CellOf(Step(cfg, Step(cfg, db, e), f), IdentifierKey(id))) ==
        CountIn(CellOf(db, IdentifierKey(id))) + if SameButCase(u, v) then 2 else 1
    {
      BurstStep(cfg, db, e, IdentifierKey(id));
      BurstStep(cfg, Step(cfg, db, e), f, IdentifierKey(id));
    }
  }

  /** A reset clears the counter of an attempt exactly when its email is such a spelling. */
  lemma SpellingsReset(cfg: Config, db: Db, a: BeforeLogin, u: string, b: AfterLogin, v: string, corr: string)
    requires Validated(cfg) && GoodDb(cfg, db) && Unspaced(a.identifier, u) && Unspaced(b.email, v) && u != ""
    ensures var e, f := AttemptEvent(a, corr, NoFault), ResetEvent(b, corr, NoFault);
      CellOf(Step(cfg, db, f), IdentifierKey(e.id)) ==
        if SameButCase(u, v) then Absent else CellOf(db, IdentifierKey(e.id))
  {
    hide NormaliseIdentifier, TrimSpace, SameButCase, Unspaced, Step, GoodDb, CellOf;
    var e, f := AttemptEvent(a, corr, NoFault), ResetEvent(b, corr, NoFault);
    NormaliseDecides(a.identifier, u, b.email, v);
    StepCell(cfg, db, f, IdentifierKey(e.id));
  }
}
