/** A map of spread models, one per key, created on first use: how the funding and
    the triangular strategies keep theirs. */
module ModelTable {
  import opened Spread
  import Ring
  import Welford

  ghost function Objects(models: map<string, SpreadModel>): set<object> {
    (set k | k in models :: models[k] as object) + (set k | k in models :: models[k].buf as object)
  }

  ghost predicate ValidTable(models: map<string, SpreadModel>)
    reads Objects(models)
  {
    && (forall k | k in models :: ValidModel(models[k]))
    && (forall k, l | k in models && l in models && k != l :: models[k] != models[l] && models[k].buf != models[l].buf)
  }

  ghost predicate ValidModel(m: SpreadModel)
    reads m, m.buf
  {
    m.Valid() && m.buf.Length == WINDOW_SIZE
  }

  ghost function History(models: map<string, SpreadModel>, key: string): seq<real>
    reads if key in models then {models[key]} else {}
  {
    if key in models then models[key].history else []
  }

  /** Train the model of `key` on `x`, creating it when it is missing. */
  method Train(models: map<string, SpreadModel>, key: string, x: real)
    returns (models': map<string, SpreadModel>, sm: SpreadModel)
    requires ValidTable(models)
    modifies Objects(models)
    ensures ValidTable(models') && ValidModel(sm) && fresh(Objects(models') - Objects(models))
    ensures models' == models[key := sm] && (key in models ==> sm == models[key])
    ensures sm.history == old(History(models, key)) + [x]
    ensures forall k | k in models && k != key :: models[k].history == old(models[k].history)
  {
    hide ValidModel;
    if key in models {
      models', sm := models, models[key];
    } else {
      sm := NewModel();
      models' := models[key := sm];
    }
    UpdateModel(sm, x);
  }

  method NewModel() returns (sm: SpreadModel)
    ensures ValidModel(sm) && fresh(sm) && fresh(sm.buf) && sm.history == []
  {
    sm := new SpreadModel(WINDOW_SIZE);
  }

  method UpdateModel(sm: SpreadModel, x: real)
    requires ValidModel(sm)
    modifies sm, sm.buf
    ensures ValidModel(sm) && sm.history == old(sm.history) + [x]
  {
    sm.Update(x);
  }

  /** The score of the sample just trained on. */
  lemma TrainedScore(sm: SpreadModel, fns: MathFns, x: real, netPct: real)
    requires ValidModel(sm) && fns.Valid()
    requires sm.history != [] && sm.history[|sm.history| - 1] == x
    ensures var (z, score) := ScoreSignal(fns, sm, x, netPct);
            && IsScoring(fns, Ring.LastN(sm.history, 500), x, netPct, z, score)
            && Welford.Sq(z) <= 499.0 && 0.0 <= score <= 1.0
  {
    hide IsScoring;
    JustInsertedScore(sm, fns, x, netPct);
  }
}
