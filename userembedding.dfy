/** The replay preference builder (src/services/userEmbedding.service.js):
    each past event contributes repeated copies of its embedding, and the
    copies are averaged. The event table, the car table, the embedding
    model, the clock-based decay and `normalize` are parameters. */
module UserEmbedding {
  import opened Intents

  /** `eventType: ENUM("search", "click", "book")` */
  datatype EventType = Search | Click | Book

  /** A `user_events` row; `createdAt` is its timestamp. Both `carId` and
      `query` may be `null`. */
  datatype UserEvent = UserEvent(eventType: EventType, carId: Option<int>, query: Option<string>, createdAt: int)

  /** A `Car` row with the columns the event text uses. */
  datatype StoredCar = StoredCar(brand: string, model: string, vehicleType: string, price: int, description: string)

  /** What the loop makes of one event: the text to embed, the `TypeError`
      of a click or book event whose car is not found, or a text that
      `generateEmbedding` rejects as empty (a `null` or `""` query). */
  datatype TextOutcome = Embeddable(text: string) | CarMissing | TextEmpty

  /** `null` for a user without events; the `TypeError` of a missing car or
      the "called with empty input" error, whichever event fails first;
      else the normalised average. */
  datatype EmbeddingResult = NoHistory | CarNotFound | EmptyInput | Built(vector: seq<real>)

  /** `EVENT_WEIGHTS` */
  function BaseWeight(t: EventType): (w: nat)
    ensures t == Search ==> w == 1
    ensures t == Click ==> w == 3
    ensures t == Book ==> w == 10
  {
    match t
    case Search => 1
    case Click => 3
    case Book => 10
  }

  /** `baseWeight * decay`, written per event type so that it stays linear. */
  function DecayedWeight(t: EventType, decay: real): real {
    match t
    case Search => decay
    case Click => 3.0 * decay
    case Book => 10.0 * decay
  }

  lemma DecayedWeightIsProduct(t: EventType, decay: real)
    ensures DecayedWeight(t, decay) == BaseWeight(t) as real * decay
  {
  }

  /** `Math.round`: the nearest integer, halves rounded up. */
  function Round(x: real): (n: int)
    ensures n as real - 0.5 <= x < n as real + 0.5
  {
    (x + 0.5).Floor
  }

  /** `Math.max(1, Math.round(weight))`: an event always counts at least once. */
  function ReplicationCount(weight: real): (n: nat)
    ensures n >= 1
    ensures weight >= 0.5 ==> n == Round(weight)
    ensures weight < 0.5 ==> n == 1
  {
    var r := Round(weight);
    if r >= 1 then r else 1
  }

  /** A decay in [0, 1] never raises an event above its base weight. */
  lemma DecayedCountBounded(t: EventType, decay: real)
    requires 0.0 <= decay <= 1.0
    ensures 1 <= ReplicationCount(DecayedWeight(t, decay)) <= BaseWeight(t)
  {
  }

  /** The text embedded for an event: the query of a search, otherwise
      "brand model type description" of its car. A missing car fails, and
      so does a search whose query is `null` or empty, as the embedding
      call refuses a falsy text; a car's text is never empty. */
  function EventText(e: UserEvent, findCar: Option<int> -> Option<StoredCar>): (t: TextOutcome)
    ensures e.eventType == Search ==>
              t == if e.query.Some? && e.query.value != "" then Embeddable(e.query.value) else TextEmpty
    ensures e.eventType != Search ==> (t == CarMissing <==> findCar(e.carId).None?) && t != TextEmpty
    ensures e.eventType != Search && t.Embeddable? ==>
              var c := findCar(e.carId).value;
              t.text == c.brand + " " + c.model + " " + c.vehicleType + " " + c.description
    ensures t.Embeddable? ==> t.text != ""
  {
    if e.eventType == Search then
      if e.query.Some? && e.query.value != "" then Embeddable(e.query.value) else TextEmpty
    else match findCar(e.carId)
      case None => CarMissing
      case Some(c) => Embeddable(c.brand + " " + c.model + " " + c.vehicleType + " " + c.description)
  }

  predicate AllTextsFound(events: seq<UserEvent>, findCar: Option<int> -> Option<StoredCar>) {
    forall k :: 0 <= k < |events| ==> EventText(events[k], findCar).Embeddable?
  }

  /** Event `k` is the first whose text cannot be embedded. */
  predicate FailsAt(events: seq<UserEvent>, findCar: Option<int> -> Option<StoredCar>, k: nat) {
    k < |events| && !EventText(events[k], findCar).Embeddable? &&
    forall j :: 0 <= j < k ==> EventText(events[j], findCar).Embeddable?
  }

  /** There is at most one first failure, and none when every text is found. */
  lemma FailsAtUnique(events: seq<UserEvent>, findCar: Option<int> -> Option<StoredCar>, k: nat)
    requires FailsAt(events, findCar, k)
    ensures !AllTextsFound(events, findCar)
    ensures forall m: nat :: FailsAt(events, findCar, m) ==> m == k
  {
  }

  function Embeddings(events: seq<UserEvent>, findCar: Option<int> -> Option<StoredCar>,
                      embed: string -> seq<real>): (vs: seq<seq<real>>)
    requires AllTextsFound(events, findCar)
    ensures |vs| == |events|
    ensures forall k :: 0 <= k < |events| ==> vs[k] == embed(EventText(events[k], findCar).text)
  {
    seq(|events|, k requires 0 <= k < |events| => embed(EventText(events[k], findCar).text))
  }

  function Weights(events: seq<UserEvent>, decay: int -> real): (ws: seq<nat>)
    ensures |ws| == |events|
    ensures forall k :: 0 <= k < |events| ==>
              ws[k] == ReplicationCount(DecayedWeight(events[k].eventType, decay(events[k].createdAt)))
  {
    seq<nat>(|events|, k requires 0 <= k < |events| =>
      ReplicationCount(DecayedWeight(events[k].eventType, decay(events[k].createdAt))))
  }

  predicate SameLength(vs: seq<seq<real>>, dim: nat) {
    forall k :: 0 <= k < |vs| ==> |vs[k]| == dim
  }

  /** `n` copies of `v`. */
  function Copies(v: seq<real>, n: nat): (r: seq<seq<real>>)
    ensures |r| == n && forall k :: 0 <= k < n ==> r[k] == v
  {
    seq(n, _ => v)
  }

  /** The list `weightedVectors` holds: each vector repeated by its weight, in order. */
  function Replicated(vs: seq<seq<real>>, ws: seq<nat>): seq<seq<real>>
    requires |vs| == |ws|
  {
    if vs == [] then []
    else Replicated(vs[..|vs| - 1], ws[..|ws| - 1]) + Copies(vs[|vs| - 1], ws[|ws| - 1])
  }

  /** `v[i]`; the sums below are only used on vectors of one length, where
      the fallback never applies. */
  function Entry(v: seq<real>, i: nat): real {
    if i < |v| then v[i] else 0.0
  }

  /** `w * x`, as `w`-fold addition. */
  function Scaled(w: nat, x: real): real {
    if w == 0 then 0.0 else Scaled(w - 1, x) + x
  }

  lemma {:induction false} ScaledIsProduct(w: nat, x: real)
    ensures Scaled(w, x) == w as real * x
  {
    if w > 0 {
      ScaledIsProduct(w - 1, x);
    }
  }

  /** The sum of the `i`-th elements. */
  function ColumnSum(vs: seq<seq<real>>, i: nat): real {
    if vs == [] then 0.0 else ColumnSum(vs[..|vs| - 1], i) + Entry(vs[|vs| - 1], i)
  }

  function WeightSum(ws: seq<nat>): nat {
    if ws == [] then 0 else WeightSum(ws[..|ws| - 1]) + ws[|ws| - 1]
  }

  /** The sum of `ws[k] * vs[k][i]`. */
  function WeightedColumnSum(vs: seq<seq<real>>, ws: seq<nat>, i: nat): real
    requires |vs| == |ws|
  {
    if vs == [] then 0.0
    else WeightedColumnSum(vs[..|vs| - 1], ws[..|ws| - 1], i) + Scaled(ws[|ws| - 1], Entry(vs[|vs| - 1], i))
  }

  /** The weighted mean of equal-length vectors, as an independent reference. */
  function WeightedMean(vs: seq<seq<real>>, ws: seq<nat>, dim: nat): (m: seq<real>)
    requires |vs| == |ws| && SameLength(vs, dim) && WeightSum(ws) > 0
    ensures |m| == dim
    ensures forall i :: 0 <= i < dim ==> m[i] == WeightedColumnSum(vs, ws, i) / WeightSum(ws) as real
  {
    seq(dim, i requires 0 <= i < dim => WeightedColumnSum(vs, ws, i) / WeightSum(ws) as real)
  }

  lemma {:induction false} ColumnSumAppend(a: seq<seq<real>>, b: seq<seq<real>>, i: nat)
    ensures ColumnSum(a + b, i) == ColumnSum(a, i) + ColumnSum(b, i)
    decreases |b|
  {
    if b != [] {
      var ab := a + b;
      assert ab[..|ab| - 1] == a + b[..|b| - 1];
      ColumnSumAppend(a, b[..|b| - 1], i);
    } else {
      assert a + b == a;
    }
  }

  lemma {:induction false} ColumnSumCopies(v: seq<real>, n: nat, i: nat)
    ensures ColumnSum(Copies(v, n), i) == Scaled(n, Entry(v, i))
  {
    if n > 0 {
      assert Copies(v, n)[..n - 1] == Copies(v, n - 1);
      ColumnSumCopies(v, n - 1, i);
    }
  }

  /** The replicated list has one entry per unit of weight, each one of the vectors. */
  lemma {:induction false} ReplicatedShape(vs: seq<seq<real>>, ws: seq<nat>, dim: nat)
    requires |vs| == |ws| && SameLength(vs, dim)
    ensures |Replicated(vs, ws)| == WeightSum(ws)
    ensures SameLength(Replicated(vs, ws), dim)
  {
    if vs != [] {
      ReplicatedShape(vs[..|vs| - 1], ws[..|ws| - 1], dim);
    }
  }

  /** The last vector's copies add its weighted entry to the column sum. */
  lemma ReplicatedColumnSumLast(vs: seq<seq<real>>, ws: seq<nat>, i: nat)
    requires |vs| == |ws| && vs != []
    ensures ColumnSum(Replicated(vs, ws), i) ==
              ColumnSum(Replicated(vs[..|vs| - 1], ws[..|ws| - 1]), i) + Scaled(ws[|ws| - 1], Entry(vs[|vs| - 1], i))
  {
    var n := |vs| - 1;
    var r, c := Replicated(vs[..n], ws[..n]), Copies(vs[n], ws[n]);
    assert Replicated(vs, ws) == r + c;
    ColumnSumAppend(r, c, i);
    ColumnSumCopies(vs[n], ws[n], i);
  }

  /** Summing the replicated list is summing the weighted vectors. */
  lemma {:induction false} ReplicatedColumnSum(vs: seq<seq<real>>, ws: seq<nat>, i: nat)
    requires |vs| == |ws|
    ensures ColumnSum(Replicated(vs, ws), i) == WeightedColumnSum(vs, ws, i)
  {
    if vs != [] {
      ReplicatedColumnSumLast(vs, ws, i);
      ReplicatedColumnSum(vs[..|vs| - 1], ws[..|ws| - 1], i);
    }
  }

  /** The plain mean of the replicated list is the weighted mean of the events. */
  lemma ReplicatedMean(vs: seq<seq<real>>, ws: seq<nat>, dim: nat)
    requires |vs| == |ws| && SameLength(vs, dim) && WeightSum(ws) > 0
    ensures var r := Replicated(vs, ws);
            && |r| == WeightSum(ws) && SameLength(r, dim)
            && forall i :: 0 <= i < dim ==>
                 ColumnSum(r, i) / |r| as real == WeightedMean(vs, ws, dim)[i]
  {
    ReplicatedShape(vs, ws, dim);
    forall i | 0 <= i < dim
      ensures ColumnSum(Replicated(vs, ws), i) == WeightedColumnSum(vs, ws, i)
    {
      ReplicatedColumnSum(vs, ws, i);
    }
  }

  /** Positive weights over a non-empty list have a positive sum. */
  lemma {:induction false} WeightSumPositive(ws: seq<nat>)
    requires ws != [] && forall k :: 0 <= k < |ws| ==> ws[k] >= 1
    ensures WeightSum(ws) >= |ws|
  {
    if |ws| > 1 {
      WeightSumPositive(ws[..|ws| - 1]);
    }
  }

  /** `averageVectors(vectors)`: element `i` is the sum of the `i`-th
      elements divided by the number of vectors. */
  method AverageVectors(vectors: seq<seq<real>>) returns (avg: seq<real>)
    requires vectors != [] && SameLength(vectors, |vectors[0]|)
    ensures |avg| == |vectors[0]|
    ensures forall i :: 0 <= i < |avg| ==> avg[i] == ColumnSum(vectors, i) / |vectors| as real
  {
    var size := |vectors[0]|;
    var sums := new real[size](_ => 0.0);
    var k := 0;
    while k < |vectors|
      invariant 0 <= k <= |vectors|
      invariant forall i :: 0 <= i < size ==> sums[i] == ColumnSum(vectors[..k], i)
    {
      var v := vectors[k];
      assert vectors[..k + 1][..k] == vectors[..k];
      var i := 0;
      while i < size
        invariant 0 <= i <= size
        invariant forall j :: 0 <= j < i ==> sums[j] == ColumnSum(vectors[..k + 1], j)
        invariant forall j :: i <= j < size ==> sums[j] == ColumnSum(vectors[..k], j)
      {
        sums[i] := sums[i] + v[i];
        i := i + 1;
      }
      k := k + 1;
    }
    assert vectors[..|vectors|] == vectors;
    avg := seq(size, i requires 0 <= i < size reads sums => sums[i] / |vectors| as real);
  }

  /** One more event extends the replicated prefix by its copies. */
  lemma ReplicatedPrefixStep(events: seq<UserEvent>, k: nat, findCar: Option<int> -> Option<StoredCar>,
                             embed: string -> seq<real>, decay: int -> real)
    requires k < |events| && AllTextsFound(events[..k], findCar) && EventText(events[k], findCar).Embeddable?
    ensures AllTextsFound(events[..k + 1], findCar)
    ensures Replicated(Embeddings(events[..k + 1], findCar, embed), Weights(events[..k + 1], decay)) ==
              Replicated(Embeddings(events[..k], findCar, embed), Weights(events[..k], decay)) +
              Copies(embed(EventText(events[k], findCar).text),
                     ReplicationCount(DecayedWeight(events[k].eventType, decay(events[k].createdAt))))
  {
    var prefix := events[..k + 1];
    assert prefix[..k] == events[..k];
    assert AllTextsFound(prefix, findCar);
    assert Embeddings(prefix, findCar, embed)[..k] == Embeddings(events[..k], findCar, embed);
    assert Weights(prefix, decay)[..k] == Weights(events[..k], decay);
  }

  /** When every text is found, no event fails. */
  lemma NoFailure(events: seq<UserEvent>, findCar: Option<int> -> Option<StoredCar>)
    requires AllTextsFound(events, findCar)
    ensures forall k: nat :: !FailsAt(events, findCar, k)
  {
  }

  /** The event loop of `buildUserEmbedding`: pushes each event's embedding
      `finalWeight` times onto `weightedVectors`, and stops at the first
      event whose text cannot be embedded, returning its index. */
  method ReplayEvents(events: seq<UserEvent>, findCar: Option<int> -> Option<StoredCar>,
                      embed: string -> seq<real>, decay: int -> real)
    returns (weighted: seq<seq<real>>, failed: Option<nat>)
    ensures failed.None? <==> AllTextsFound(events, findCar)
    ensures failed.Some? ==> FailsAt(events, findCar, failed.value)
    ensures failed.None? ==>
              weighted == Replicated(Embeddings(events, findCar, embed), Weights(events, decay))
  {
    var weightedVectors: seq<seq<real>> := [];
    var k := 0;
    while k < |events|
      invariant 0 <= k <= |events|
      invariant AllTextsFound(events[..k], findCar)
      invariant weightedVectors == Replicated(Embeddings(events[..k], findCar, embed), Weights(events[..k], decay))
    {
      var event := events[k];
      var text := EventText(event, findCar);
      if !text.Embeddable? {
        assert forall j :: 0 <= j < k ==> events[j] == events[..k][j];
        FailsAtUnique(events, findCar, k);
        return weightedVectors, Some(k);
      }
      var embedding := embed(text.text);
      var finalWeight := ReplicationCount(DecayedWeight(event.eventType, decay(event.createdAt)));
      var i := 0;
      ghost var before := weightedVectors;
      while i < finalWeight
        invariant 0 <= i <= finalWeight
        invariant weightedVectors == before + Copies(embedding, i)
      {
        weightedVectors := weightedVectors + [embedding];
        i := i + 1;
      }
      ReplicatedPrefixStep(events, k, findCar, embed, decay);
      k := k + 1;
    }
    assert events[..|events|] == events;
    weighted, failed := weightedVectors, None;
  }

  /** `buildUserEmbedding` over the user's events, newest first. */
  method BuildUserEmbedding(events: seq<UserEvent>, findCar: Option<int> -> Option<StoredCar>,
                            embed: string -> seq<real>, dim: nat, decay: int -> real,
                            normalize: seq<real> -> seq<real>) returns (r: EmbeddingResult)
    requires forall t :: |embed(t)| == dim
    ensures events == [] <==> r == NoHistory
    ensures r == CarNotFound <==>
              exists k: nat :: FailsAt(events, findCar, k) && k < |events| && EventText(events[k], findCar) == CarMissing
    ensures r == EmptyInput <==>
              exists k: nat :: FailsAt(events, findCar, k) && k < |events| && EventText(events[k], findCar) == TextEmpty
    ensures r.Built? <==> events != [] && AllTextsFound(events, findCar)
    ensures r.Built? ==>
              r.vector == normalize(WeightedMean(Embeddings(events, findCar, embed), Weights(events, decay), dim))
  {
    if |events| == 0 { return NoHistory; }
    var weighted, failed := ReplayEvents(events, findCar, embed, decay);
    if failed.Some? {
      FailsAtUnique(events, findCar, failed.value);
      assert FailsAt(events, findCar, failed.value);
      if EventText(events[failed.value], findCar) == CarMissing {
        return CarNotFound;
      }
      return EmptyInput;
    }
    NoFailure(events, findCar);
    ghost var vs := Embeddings(events, findCar, embed);
    ghost var ws := Weights(events, decay);
    WeightSumPositive(ws);
    ReplicatedMean(vs, ws, dim);
    var avg := AverageVectors(weighted);
    assert avg == WeightedMean(vs, ws, dim);
    r := Built(normalize(avg));
  }
}
