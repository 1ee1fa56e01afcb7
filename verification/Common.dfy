/** Optional values and results, in place of the source's null, undefined and thrown errors. */
module Common {

  datatype Option<+T> = None | Some(value: T) {
    function GetOr(default: T): T {
      if Some? then value else default
    }
  }

  datatype Result<+T, +E> = Ok(value: T) | Err(error: E) {
    predicate IsFailure() {
      Err?
    }

    function PropagateFailure<U>(): Result<U, E>
      requires Err?
    {
      Err(error)
    }

    function Extract(): T
      requires Ok?
    {
      value
    }
  }
}

/** Positions of the elements that one list takes over from another, in its order. */
module Picking {

  /** Positions below `n`, in order and each once. */
  ghost predicate Positions(at: seq<nat>, n: nat) {
    && (forall i :: 0 <= i < |at| ==> at[i] < n)
    && (forall i, j :: 0 <= i < j < |at| ==> at[i] < at[j])
  }

  lemma OneMorePosition(at: seq<nat>, n: nat)
    requires Positions(at, n)
    ensures Positions(at, n + 1) && Positions(at + [n], n + 1)
    ensures n !in at && forall k: nat :: k in at + [n] <==> k in at || k == n
  {
  }
}

/** How a call to the gateway or to an API ends, and what the policy engine decides. */
module Gateway {
  datatype Reply<+T, +E> = Replied(value: T) | Threw(error: E)

  datatype Decision = Allow | Deny | RequireApproval
}

/** Data classification levels, from least to most sensitive (plugins/shared/src/constants.ts). */
module Levels {
  import opened Common

  datatype Level = Public | Internal | Confidential | Restricted

  const CLASSIFICATION_LEVELS: seq<Level> := [Public, Internal, Confidential, Restricted]

  /** Position in `CLASSIFICATION_LEVELS`. */
  function Index(l: Level): nat {
    match l
    case Public => 0
    case Internal => 1
    case Confidential => 2
    case Restricted => 3
  }

  function LevelName(l: Level): string {
    match l
    case Public => "public"
    case Internal => "internal"
    case Confidential => "confidential"
    case Restricted => "restricted"
  }

  function LevelNamed(s: string): Option<Level> {
    if s == "public" then Some(Public)
    else if s == "internal" then Some(Internal)
    else if s == "confidential" then Some(Confidential)
    else if s == "restricted" then Some(Restricted)
    else None
  }
}
