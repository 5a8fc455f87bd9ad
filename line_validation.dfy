/** The per-line check that PedidoController::store and VentaController::store share: a
    `foreach` over the requested lines that keeps a `seenProducts` list and writes into the
    error map under `producto_<...>` keys. `ScanLines` follows the loop step by step;
    `Verdict` says independently what each line writes; the lemmas connect the two. */
module LineValidation {
  import opened Wrappers
  import opened Domain
  import opened LineEffects

  /** One element of the request's `productos` array; a missing or null field is None. */
  datatype LineRequest = LineRequest(id: Option<Id>, cantidad: Option<int>)

  /** State of the loop: the error map and the `seenProducts` list. */
  datatype Scan = Scan(errors: Errors, seen: seq<Id>)

  /** `isset($productoData['id']) && isset($productoData['cantidad'])` */
  predicate Complete(l: LineRequest) {
    l.id.Some? && l.cantidad.Some?
  }

  /** One iteration of the loop body, for the line at position `index`. */
  function StepLine(products: map<Id, Producto>, acc: Scan, index: int, l: LineRequest): Scan {
    if !Complete(l) then
      Scan(acc.errors[ProductoKey(index + 1) := MissingData], acc.seen)
    else if l.id.value in acc.seen then
      Scan(acc.errors[ProductoKey(l.id.value) := Duplicate(l.id.value)], acc.seen)
    else if l.id.value !in products then
      Scan(acc.errors[ProductoKey(l.id.value) := NotRegistered], acc.seen)
    else
      var stock := products[l.id.value].stock;
      var errors := if stock < l.cantidad.value
                    then acc.errors[ProductoKey(l.id.value) := InsufficientStock(stock)]
                    else acc.errors;
      Scan(errors, acc.seen + [l.id.value])
  }

  /** The loop run over `lines` from the error map `init` (what the validator reported)
      and an empty `seenProducts`. */
  function ScanLines(products: map<Id, Producto>, lines: seq<LineRequest>, init: Errors): Scan
    decreases |lines|
  {
    if lines == [] then Scan(init, [])
    else StepLine(products, ScanLines(products, lines[..|lines| - 1], init), |lines| - 1, lines[|lines| - 1])
  }

  /** Some line before position `n` is complete, names product `x`, and `x` exists: exactly
      the lines the loop appends to `seenProducts` (unknown ids are never appended). */
  ghost predicate SeenBefore(products: map<Id, Producto>, lines: seq<LineRequest>, n: int, x: Id) {
    exists j :: 0 <= j < n && j < |lines| && Complete(lines[j]) && lines[j].id.value == x && x in products
  }

  /** What line `i` writes into the error map, if anything, stated without the loop. */
  ghost function Verdict(products: map<Id, Producto>, lines: seq<LineRequest>, i: int): Option<(ErrorKey, Message)>
    requires 0 <= i < |lines|
  {
    var l := lines[i];
    if !Complete(l) then Some((ProductoKey(i + 1), MissingData))
    else if SeenBefore(products, lines, i, l.id.value) then Some((ProductoKey(l.id.value), Duplicate(l.id.value)))
    else if l.id.value !in products then Some((ProductoKey(l.id.value), NotRegistered))
    else if products[l.id.value].stock < l.cantidad.value
    then Some((ProductoKey(l.id.value), InsufficientStock(products[l.id.value].stock)))
    else None
  }

  /** Line `i` writes under key `k`. */
  ghost predicate Writes(products: map<Id, Producto>, lines: seq<LineRequest>, i: int, k: ErrorKey) {
    0 <= i < |lines| && Verdict(products, lines, i).Some? && Verdict(products, lines, i).value.0 == k
  }

  /** Every line is complete, names an existing product with enough stock, and no product
      is named twice. */
  ghost predicate AllLinesValid(products: map<Id, Producto>, lines: seq<LineRequest>) {
    && (forall i :: 0 <= i < |lines| ==>
          Complete(lines[i]) && lines[i].id.value in products
          && lines[i].cantidad.value <= products[lines[i].id.value].stock)
    && (forall i, j :: 0 <= i < j < |lines| ==> lines[i].id != lines[j].id)
  }

  ghost function Record(errors: Errors, v: Option<(ErrorKey, Message)>): Errors {
    if v.Some? then errors[v.value.0 := v.value.1] else errors
  }

  /** The seen list after `n` lines holds exactly the ids `SeenBefore` names. */
  ghost predicate SeenMatches(products: map<Id, Producto>, lines: seq<LineRequest>, init: Errors, n: int)
    requires 0 <= n <= |lines|
  {
    forall x :: x in ScanLines(products, lines[..n], init).seen <==> SeenBefore(products, lines, n, x)
  }

  /** One step of the loop, on the line at index `n`, writes exactly what `Verdict` says,
      and extends the seen list exactly as `SeenBefore` does. */
  lemma StepIsVerdict(products: map<Id, Producto>, lines: seq<LineRequest>, init: Errors, n: int)
    requires 0 <= n < |lines| && SeenMatches(products, lines, init, n)
    ensures ScanLines(products, lines[..n + 1], init).errors
            == Record(ScanLines(products, lines[..n], init).errors, Verdict(products, lines, n))
    ensures SeenMatches(products, lines, init, n + 1)
  {
    var m := n + 1;
    assert lines[..m][..n] == lines[..n];
    var s := ScanLines(products, lines[..n], init);
    var l := lines[n];
    assert ScanLines(products, lines[..m], init) == StepLine(products, s, n, l);
    forall x
      ensures x in ScanLines(products, lines[..m], init).seen <==> SeenBefore(products, lines, m, x)
    {
      if SeenBefore(products, lines, m, x) && !SeenBefore(products, lines, n, x) {
        var j :| 0 <= j < m && j < |lines| && Complete(lines[j]) && lines[j].id.value == x && x in products;
        assert j == n;
      }
      if Complete(l) && l.id.value in products && !SeenBefore(products, lines, n, l.id.value) {
        assert SeenBefore(products, lines, m, l.id.value);
      }
    }
  }

  /** The loop keeps `SeenMatches`: after `n` lines the seen list holds exactly the ids of
      the earlier complete lines whose product exists. */
  lemma {:induction false} SeenInvariant(products: map<Id, Producto>, lines: seq<LineRequest>, init: Errors, n: int)
    requires 0 <= n <= |lines|
    ensures SeenMatches(products, lines, init, n)
  {
    if n == 0 {
      assert lines[..0] == [];
    } else {
      SeenInvariant(products, lines, init, n - 1);
      StepIsVerdict(products, lines, init, n - 1);
    }
  }

  /** A key is in `errors` iff the validator put it there or one of the first `n` lines writes it. */
  ghost predicate KeysMatch(products: map<Id, Producto>, lines: seq<LineRequest>, init: Errors, n: int, errors: Errors) {
    forall k :: k in errors <==> (k in init || exists i :: 0 <= i < n && Writes(products, lines, i, k))
  }

  /** Each key holds the message of the last of the first `n` lines that writes it, or the
      validator's message when no line does. */
  ghost predicate ValuesMatch(products: map<Id, Producto>, lines: seq<LineRequest>, init: Errors, n: int, errors: Errors) {
    && (forall k :: k in init && (forall i :: 0 <= i < n ==> !Writes(products, lines, i, k)) ==>
          k in errors && errors[k] == init[k])
    && (forall i, k :: 0 <= i < n && Writes(products, lines, i, k)
                       && (forall j :: i < j < n ==> !Writes(products, lines, j, k)) ==>
          k in errors && errors[k] == Verdict(products, lines, i).value.1)
  }

  /** Recording line `n`'s verdict keeps the key description true for the first `n + 1` lines... */
  lemma RecordKeys(products: map<Id, Producto>, lines: seq<LineRequest>, init: Errors, n: int, m: int,
                   before: Errors, after: Errors)
    requires 0 <= n < |lines| && m == n + 1
    requires KeysMatch(products, lines, init, n, before)
    requires after == Record(before, Verdict(products, lines, n))
    ensures KeysMatch(products, lines, init, m, after)
  {
    forall k ensures k in after <==> (k in init || exists i :: 0 <= i < m && Writes(products, lines, i, k)) {
      if Writes(products, lines, n, k) {
        assert k in after;
      }
    }
  }

  /** ... and the last-writer description of the values. */
  lemma RecordValues(products: map<Id, Producto>, lines: seq<LineRequest>, init: Errors, n: int, m: int,
                     before: Errors, after: Errors)
    requires 0 <= n < |lines| && m == n + 1
    requires ValuesMatch(products, lines, init, n, before)
    requires after == Record(before, Verdict(products, lines, n))
    ensures ValuesMatch(products, lines, init, m, after)
  {
    forall i, k | 0 <= i < m && Writes(products, lines, i, k) && (forall j :: i < j < m ==> !Writes(products, lines, j, k))
      ensures k in after && after[k] == Verdict(products, lines, i).value.1
    {
      if i < n {
        assert !Writes(products, lines, n, k);
      }
    }
    forall k | k in init && (forall i :: 0 <= i < m ==> !Writes(products, lines, i, k))
      ensures k in after && after[k] == init[k]
    {
      assert !Writes(products, lines, n, k);
    }
  }

  /** What the loop has built after the first `n` lines: a key is present iff the validator
      put it there or some line writes it, and its value comes from the LAST line that
      writes it (earlier messages under the same key are overwritten), or from the validator
      when no line does. */
  lemma {:induction false} ErrorsInvariant(products: map<Id, Producto>, lines: seq<LineRequest>, init: Errors, n: int)
    requires 0 <= n <= |lines|
    ensures KeysMatch(products, lines, init, n, ScanLines(products, lines[..n], init).errors)
    ensures ValuesMatch(products, lines, init, n, ScanLines(products, lines[..n], init).errors)
  {
    if n == 0 {
      assert lines[..0] == [];
    } else {
      ErrorsInvariant(products, lines, init, n - 1);
      SeenInvariant(products, lines, init, n - 1);
      StepIsVerdict(products, lines, init, n - 1);
      var before, after := ScanLines(products, lines[..n - 1], init).errors, ScanLines(products, lines[..n], init).errors;
      RecordKeys(products, lines, init, n - 1, n, before, after);
      RecordValues(products, lines, init, n - 1, n, before, after);
    }
  }

  /** No line writes anything exactly when all lines are valid. */
  lemma NoVerdictIffValid(products: map<Id, Producto>, lines: seq<LineRequest>)
    ensures (forall i :: 0 <= i < |lines| ==> Verdict(products, lines, i).None?) <==> AllLinesValid(products, lines)
  {
    if forall i :: 0 <= i < |lines| ==> Verdict(products, lines, i).None? {
      forall i | 0 <= i < |lines|
        ensures Complete(lines[i]) && lines[i].id.value in products
        ensures lines[i].cantidad.value <= products[lines[i].id.value].stock
      {
        assert Verdict(products, lines, i).None?;
      }
      forall i, j | 0 <= i < j < |lines| ensures lines[i].id != lines[j].id {
        assert Verdict(products, lines, i).None? && Verdict(products, lines, j).None?;
        assert !SeenBefore(products, lines, j, lines[j].id.value);
        assert lines[i].id.value != lines[j].id.value;
      }
    }
    if AllLinesValid(products, lines) {
      forall i | 0 <= i < |lines| ensures Verdict(products, lines, i).None? {
        forall j | 0 <= j < i ensures lines[j].id.value != lines[i].id.value {
          assert lines[j].id != lines[i].id;
        }
        assert !SeenBefore(products, lines, i, lines[i].id.value);
      }
    }
  }

  /** The error map stays empty exactly when the validator reported nothing and every
      line is valid: a request is rejected as soon as any line is incomplete,
      duplicated, unknown or short of stock. */
  lemma NoErrorsIff(products: map<Id, Producto>, lines: seq<LineRequest>, init: Errors)
    ensures ScanLines(products, lines, init).errors == map[] <==> init == map[] && AllLinesValid(products, lines)
  {
    FinalKeys(products, lines, init);
    NoVerdictIffValid(products, lines);
    var errors := ScanLines(products, lines, init).errors;
    assert forall k :: k in init ==> k in errors;
    forall i | 0 <= i < |lines| && Verdict(products, lines, i).Some?
      ensures Verdict(products, lines, i).value.0 in errors
    {
      assert Writes(products, lines, i, Verdict(products, lines, i).value.0);
    }
    if init == map[] && AllLinesValid(products, lines) {
      forall k ensures k !in errors {
        assert !exists i :: 0 <= i < |lines| && Writes(products, lines, i, k);
      }
    }
  }

  /** The keys of the error map after the whole loop. */
  lemma FinalKeys(products: map<Id, Producto>, lines: seq<LineRequest>, init: Errors)
    ensures KeysMatch(products, lines, init, |lines|, ScanLines(products, lines, init).errors)
  {
    ErrorsInvariant(products, lines, init, |lines|);
    assert lines[..|lines|] == lines;
  }

  /** The error map after the whole loop: keys and last-writer values as `ErrorsInvariant`
      states them, for all the lines. */
  lemma FinalErrors(products: map<Id, Producto>, lines: seq<LineRequest>, init: Errors)
    ensures KeysMatch(products, lines, init, |lines|, ScanLines(products, lines, init).errors)
    ensures ValuesMatch(products, lines, init, |lines|, ScanLines(products, lines, init).errors)
  {
    ErrorsInvariant(products, lines, init, |lines|);
    assert lines[..|lines|] == lines;
  }

  /** A line missing `id` or `cantidad` leaves key `producto_<index+1>` in the final map
      (its message may have been overwritten by a later line that writes the same key). */
  lemma MissingDataReported(products: map<Id, Producto>, lines: seq<LineRequest>, init: Errors, i: int)
    requires 0 <= i < |lines| && !Complete(lines[i])
    ensures ProductoKey(i + 1) in ScanLines(products, lines, init).errors
  {
    FinalErrors(products, lines, init);
    assert Writes(products, lines, i, ProductoKey(i + 1));
  }

  /** Whatever key a line writes is in the final map (with that line's message, unless a
      later line writes the same key), and an unknown product always writes "not registered". */
  lemma VerdictReported(products: map<Id, Producto>, lines: seq<LineRequest>, init: Errors, i: int)
    requires 0 <= i < |lines| && Verdict(products, lines, i).Some?
    ensures Verdict(products, lines, i).value.0 in ScanLines(products, lines, init).errors
    ensures Complete(lines[i]) && lines[i].id.value !in products ==>
              Verdict(products, lines, i) == Some((ProductoKey(lines[i].id.value), NotRegistered))
  {
    FinalErrors(products, lines, init);
    assert Writes(products, lines, i, Verdict(products, lines, i).value.0);
  }

  /** A complete line whose product was named by an earlier complete line and exists is
      reported as a duplicate; an unknown product is reported as not registered however
      often it is repeated, since it never enters the seen list. */
  lemma RepeatVerdicts(products: map<Id, Producto>, lines: seq<LineRequest>, i: int, j: int)
    requires 0 <= j < i < |lines| && Complete(lines[i]) && Complete(lines[j]) && lines[i].id == lines[j].id
    ensures lines[i].id.value in products ==>
              Verdict(products, lines, i) == Some((ProductoKey(lines[i].id.value), Duplicate(lines[i].id.value)))
    ensures lines[i].id.value !in products ==>
              Verdict(products, lines, i) == Some((ProductoKey(lines[i].id.value), NotRegistered))
  {
    if lines[i].id.value in products {
      assert SeenBefore(products, lines, i, lines[i].id.value);
    }
  }

  /** A line short of stock is still appended to the seen list, so a later line with the
      same product gets the duplicate message rather than a second stock report. */
  lemma ShortStockStillSeen(products: map<Id, Producto>, lines: seq<LineRequest>, init: Errors, i: int)
    requires 0 <= i < |lines| && Complete(lines[i]) && lines[i].id.value in products
    requires products[lines[i].id.value].stock < lines[i].cantidad.value
    ensures lines[i].id.value in ScanLines(products, lines[..i + 1], init).seen
  {
    SeenInvariant(products, lines, init, i + 1);
    assert SeenBefore(products, lines, i + 1, lines[i].id.value);
  }

  /** The two kinds of `producto_<n>` key collide: a first line without an id writes
      `producto_1`, and a later line for product 1 that lacks stock overwrites it, so the
      missing-data message is lost from the response. */
  lemma KeyCollision()
    ensures var products := map[1 := Producto(1, Activo, "p", None, 1.0, 1.0, 2, Unidades)];
            var lines := [LineRequest(None, Some(1)), LineRequest(Some(1), Some(5))];
            ScanLines(products, lines, map[]).errors == map[ProductoKey(1) := InsufficientStock(2)]
  {
    var products := map[1 := Producto(1, Activo, "p", None, 1.0, 1.0, 2, Unidades)];
    var lines := [LineRequest(None, Some(1)), LineRequest(Some(1), Some(5))];
    assert lines[..1] == [LineRequest(None, Some(1))];
    assert lines[..1][..0] == [];
    assert ScanLines(products, lines[..1], map[]) == Scan(map[ProductoKey(1) := MissingData], []);
  }

  /** The validator rule `productos.*.cantidad => required|numeric|min:1` for one line. */
  predicate CantidadPasses(l: LineRequest) {
    l.cantidad.Some? && l.cantidad.value >= 1
  }

  /** A validator error map: every failing key with the generic rule message. */
  function RuleErrors(keys: set<ErrorKey>): (errors: Errors)
    ensures errors.Keys == keys
    ensures forall k :: k in errors ==> errors[k] == RuleFailed
  {
    map k | k in keys :: RuleFailed
  }

  /** The validator's failing `productos.<i>.cantidad` keys. */
  function CantidadKeys(lines: seq<LineRequest>): (keys: set<ErrorKey>)
    ensures forall k :: k in keys <==>
              k.LineFieldKey? && k.name == "cantidad" && 0 <= k.index < |lines| && !CantidadPasses(lines[k.index])
  {
    set i | 0 <= i < |lines| && !CantidadPasses(lines[i]) :: LineFieldKey(i, "cantidad")
  }

  /** The `(id, cantidad)` items a request with complete lines passes to a repository. */
  function Items(lines: seq<LineRequest>): (items: seq<Item>)
    requires forall i :: 0 <= i < |lines| ==> Complete(lines[i])
    ensures |items| == |lines|
    ensures forall i :: 0 <= i < |lines| ==> lines[i].id == Some(items[i].id) && lines[i].cantidad == Some(items[i].cantidad)
  {
    seq(|lines|, i requires 0 <= i < |lines| && Complete(lines[i]) => Item(lines[i].id.value, lines[i].cantidad.value))
  }

  /** Lines that pass the loop become items the repositories can apply without driving any
      stock below zero: distinct ids, existing products, enough stock for each. */
  lemma AcceptedItemsSafe(products: map<Id, Producto>, lines: seq<LineRequest>)
    requires AllLinesValid(products, lines)
    requires forall k :: k in products ==> products[k].stock >= 0
    ensures DistinctIds(Items(lines))
    ensures forall k :: k in Decremented(products, Items(lines)) ==> Decremented(products, Items(lines))[k].stock >= 0
    ensures forall i :: 0 <= i < |lines| ==>
              Decremented(products, Items(lines))[lines[i].id.value].stock
              == products[lines[i].id.value].stock - lines[i].cantidad.value
  {
    var items := Items(lines);
    forall i, j | 0 <= i < j < |items| ensures items[i].id != items[j].id {
      assert lines[i].id != lines[j].id;
    }
    DecrementedStaysNonNegative(products, items);
    DecrementedDistinct(products, items);
  }

  /** The loop as the controllers run it. */
  method CheckLines(products: map<Id, Producto>, lines: seq<LineRequest>, init: Errors)
    returns (errors: Errors, seen: seq<Id>)
    ensures Scan(errors, seen) == ScanLines(products, lines, init)
    ensures errors == map[] <==> init == map[] && AllLinesValid(products, lines)
  {
    errors, seen := init, [];
    for index := 0 to |lines|
      invariant Scan(errors, seen) == ScanLines(products, lines[..index], init)
    {
      assert lines[..index + 1][..index] == lines[..index];
      var l := lines[index];
      if l.id.None? || l.cantidad.None? {
        errors := errors[ProductoKey(index + 1) := MissingData];
        continue;
      }
      var id := l.id.value;
      if id in seen {
        errors := errors[ProductoKey(id) := Duplicate(id)];
        continue;
      }
      if id !in products {
        errors := errors[ProductoKey(id) := NotRegistered];
        continue;
      }
      var producto := products[id];
      if producto.stock < l.cantidad.value {
        errors := errors[ProductoKey(id) := InsufficientStock(producto.stock)];
      }
      seen := seen + [id];
    }
    assert lines[..|lines|] == lines;
    NoErrorsIff(products, lines, init);
  }
}
