/** Queries over a session table (`sesiones_administradores` or `sesiones_clientes`): rows
    in insertion order, each with an owner id and a nullable token. */
module SessionTable {
  import opened Wrappers
  import opened Domain

  /** Row `i` carries token `t`. */
  predicate HasToken(rows: seq<SessionRow>, i: int, t: string)
    requires 0 <= i < |rows|
  {
    rows[i].token == Some(t)
  }

  /** Some row carries token `t`. */
  predicate Registered(rows: seq<SessionRow>, t: string) {
    exists i :: 0 <= i < |rows| && HasToken(rows, i, t)
  }

  /** `where('token', t)->first()`: the first row carrying `t`, or null. */
  function FirstWithToken(rows: seq<SessionRow>, t: string): (r: Option<SessionRow>)
    ensures r.None? <==> !Registered(rows, t)
    ensures r.Some? ==> exists i :: 0 <= i < |rows| && rows[i] == r.value && HasToken(rows, i, t)
                                   && forall j :: 0 <= j < i ==> !HasToken(rows, j, t)
    decreases |rows|
  {
    if rows == [] then None
    else if rows[0].token == Some(t) then
      assert HasToken(rows, 0, t);
      Some(rows[0])
    else
      var r := FirstWithToken(rows[1..], t);
      assert forall i :: 0 < i < |rows| ==> (HasToken(rows, i, t) <==> HasToken(rows[1..], i - 1, t));
      if r.Some? then
        var i :| 0 <= i < |rows[1..]| && rows[1..][i] == r.value && HasToken(rows[1..], i, t)
                 && forall j :: 0 <= j < i ==> !HasToken(rows[1..], j, t);
        assert rows[i + 1] == r.value && HasToken(rows, i + 1, t);
        r
      else
        r
  }

  /** The table after `where('token', t)->delete()`: the rows not carrying `t`, in order. */
  function WithoutToken(rows: seq<SessionRow>, t: string): (r: seq<SessionRow>)
    ensures |r| <= |rows|
    ensures forall x :: x in r <==> x in rows && x.token != Some(t)
    decreases |rows|
  {
    if rows == [] then []
    else (if rows[0].token == Some(t) then [] else [rows[0]]) + WithoutToken(rows[1..], t)
  }

  /** `where(<owner column>, owner)->get()`: the rows of one owner, in order. */
  function OwnedBy(rows: seq<SessionRow>, owner: Id): (r: seq<SessionRow>)
    ensures |r| <= |rows|
    ensures forall x :: x in r <==> x in rows && x.ownerId == owner
    decreases |rows|
  {
    if rows == [] then []
    else (if rows[0].ownerId == owner then [rows[0]] else []) + OwnedBy(rows[1..], owner)
  }

  /** After deleting token `t` no row carries it. */
  lemma DeletedTokenUnregistered(rows: seq<SessionRow>, t: string)
    ensures !Registered(WithoutToken(rows, t), t)
  {
    var r := WithoutToken(rows, t);
    forall i | 0 <= i < |r| ensures !HasToken(r, i, t) {
      assert r[i] in r;
    }
  }

  /** Deleting token `t` keeps every other token registered exactly as before. */
  lemma DeleteKeepsOtherTokens(rows: seq<SessionRow>, t: string, u: string)
    requires u != t
    ensures Registered(WithoutToken(rows, t), u) <==> Registered(rows, u)
  {
    var r := WithoutToken(rows, t);
    if Registered(rows, u) {
      var i :| 0 <= i < |rows| && HasToken(rows, i, u);
      assert rows[i] in rows;
      var j :| 0 <= j < |r| && r[j] == rows[i];
      assert HasToken(r, j, u);
    }
    if Registered(r, u) {
      var j :| 0 <= j < |r| && HasToken(r, j, u);
      assert r[j] in r;
      var i :| 0 <= i < |rows| && rows[i] == r[j];
      assert HasToken(rows, i, u);
    }
  }
}
