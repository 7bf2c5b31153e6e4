/** The value transforms of sync/engine.go. */
module Transforms {
  import opened Prelude
  import Base64

  datatype Transform = Transform(field: string, kind: string)

  datatype Error = DecodeFailed | Unsupported(kind: string)

  function Step(value: bytes, t: Transform): Result<bytes, Error> {
    if t.field != "value" then Ok(value)
    else if t.kind == "base64_encode" then Ok(Base64.Encode(value))
    else if t.kind == "base64_decode" then
      (match Base64.Decode(value)
       case Some(v) => Ok(v)
       case None => Err(DecodeFailed))
    else Err(Unsupported(t.kind))
  }

  /** The whole list, from the first transform on; the first error ends it. */
  function RunAll(value: bytes, ts: seq<Transform>): Result<bytes, Error>
    decreases |ts|
  {
    if ts == [] then Ok(value)
    else match Step(value, ts[0])
      case Err(e) => Err(e)
      case Ok(v) => RunAll(v, ts[1..])
  }

  method ApplyTransforms(value: bytes, ts: seq<Transform>) returns (r: Result<bytes, Error>)
    ensures r == RunAll(value, ts)
  {
    var v := value;
    for i := 0 to |ts|
      invariant RunAll(v, ts[i..]) == RunAll(value, ts)
    {
      var t := ts[i];
      assert ts[i..][1..] == ts[i + 1..];
      if t.field != "value" {
        continue;
      }
      if t.kind == "base64_encode" {
        v := Base64.Encode(v);
      } else if t.kind == "base64_decode" {
        var decoded := Base64.Decode(v);
        if decoded.None? {
          return Err(DecodeFailed);
        }
        v := decoded.value;
      } else {
        return Err(Unsupported(t.kind));
      }
    }
    r := Ok(v);
  }

  /** What each single transform does; a transform of another field does nothing. */
  lemma OneTransform(value: bytes, field: string, kind: string)
    ensures RunAll(value, [Transform(field, kind)]) ==
            if field != "value" then Ok(value)
            else if kind == "base64_encode" then Ok(Base64.Encode(value))
            else if kind != "base64_decode" then Err(Unsupported(kind))
            else match Base64.Decode(value) { case Some(v) => Ok(v) case None => Err(DecodeFailed) }
  {
    var ts := [Transform(field, kind)];
    assert ts[1..] == [];
    var s := Step(value, ts[0]);
    assert s.Ok? ==> RunAll(s.value, ts[1..]) == Ok(s.value);
  }

  /** Running a list and then another is running the two in one; an error of the first stops both. */
  lemma {:induction false} RunAppend(value: bytes, a: seq<Transform>, b: seq<Transform>)
    ensures RunAll(value, a + b) ==
            match RunAll(value, a) { case Err(e) => Err(e) case Ok(v) => RunAll(v, b) }
    decreases |a|
  {
    if a == [] {
      assert a + b == b;
    } else {
      assert (a + b)[1..] == a[1..] + b;
      var s := Step(value, a[0]);
      if s.Ok? {
        RunAppend(s.value, a[1..], b);
      }
    }
  }

  // ---------------------------------------------------------------- balanced pipelines

  /** The transforms on the value read as brackets, encode opening and decode closing: the depth after
      the list, or None when a bracket closes that was not opened or a transform is no bracket. */
  function Depth(ts: seq<Transform>, d: nat): Option<nat>
    decreases |ts|
  {
    if ts == [] then Some(d)
    else if ts[0].field != "value" then Depth(ts[1..], d)
    else if ts[0].kind == "base64_encode" then Depth(ts[1..], d + 1)
    else if ts[0].kind == "base64_decode" && d > 0 then Depth(ts[1..], d - 1)
    else None
  }

  predicate Balanced(ts: seq<Transform>) { Depth(ts, 0) == Some(0) }

  function Nested(v: bytes, d: nat): bytes {
    if d == 0 then v else Base64.Encode(Nested(v, d - 1))
  }

  /** The value after a prefix of brackets is the input encoded once for every bracket still open. */
  lemma {:induction false} DepthIsNesting(v: bytes, ts: seq<Transform>, d: nat)
    requires Depth(ts, d).Some?
    ensures RunAll(Nested(v, d), ts) == Ok(Nested(v, Depth(ts, d).value))
    decreases |ts|
  {
    if ts == [] {
    } else if ts[0].field != "value" {
      DepthIsNesting(v, ts[1..], d);
    } else if ts[0].kind == "base64_encode" {
      DepthIsNesting(v, ts[1..], d + 1);
    } else {
      Base64.DecodeUndoesEncode(Nested(v, d - 1));
      DepthIsNesting(v, ts[1..], d - 1);
    }
  }

  /** An exclamation mark is no base64, so a list that closes too much fails on it. */
  const BANG: bytes := [33]

  lemma {:induction false} OverclosingFails(ts: seq<Transform>, d: nat)
    requires Depth(ts, d).None?
    ensures RunAll(Nested(BANG, d), ts).Err?
    decreases |ts|
  {
    if ts[0].field != "value" {
      OverclosingFails(ts[1..], d);
    } else if ts[0].kind == "base64_encode" {
      OverclosingFails(ts[1..], d + 1);
    } else if ts[0].kind == "base64_decode" {
      if d == 0 {
        Base64.NoNewlines(BANG);
      } else {
        Base64.DecodeUndoesEncode(Nested(BANG, d - 1));
        OverclosingFails(ts[1..], d - 1);
      }
    }
  }

  lemma {:induction false} NestingGrows(v: bytes, d: nat)
    requires v != []
    ensures |Nested(v, d)| >= |v| + d
  {
    if d > 0 {
      NestingGrows(v, d - 1);
    }
  }

  /** A list of transforms leaves every value as it is exactly when its value transforms form a
      balanced word of encodes and decodes. */
  lemma IdentityIffBalanced(ts: seq<Transform>)
    ensures (forall v :: RunAll(v, ts) == Ok(v)) <==> Balanced(ts)
  {
    if Balanced(ts) {
      forall v ensures RunAll(v, ts) == Ok(v) {
        DepthIsNesting(v, ts, 0);
      }
    } else if Depth(ts, 0).None? {
      OverclosingFails(ts, 0);
      assert RunAll(BANG, ts) != Ok(BANG);
    } else {
      DepthIsNesting(BANG, ts, 0);
      NestingGrows(BANG, Depth(ts, 0).value);
      assert RunAll(BANG, ts) != Ok(BANG);
    }
  }
}
