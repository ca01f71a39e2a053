/** Outcomes shared by the pipeline stages. */
module Results {

  datatype Option<T> = None | Some(value: T)

  /**
    The ways a run can fail: the target month text gives an invalid JS
    date (`toISOString` throws a RangeError), the store returned no job, or a stored record carries a
    recurrence value the expansion loop never advances on (the page hangs).
  */
  datatype Failure = InvalidDate | NoJobs | EndlessRecurrence

  datatype Result<T> = Ok(value: T) | Err(failure: Failure)

  /**
    Runs f over xs in order and joins the outputs; the first failure ends
    the run and is its outcome. This is the shape of a forEach over stored
    documents that appends each document's expansion to one list.
  */
  function Gather<T, U>(xs: seq<T>, f: T -> Result<seq<U>>): Result<seq<U>> {
    if xs == [] then Ok([])
    else
      match Gather(xs[..|xs| - 1], f)
      case Err(e) => Err(e)
      case Ok(front) =>
        match f(xs[|xs| - 1])
        case Err(e) => Err(e)
        case Ok(more) => Ok(front + more)
  }

  /** The run succeeds exactly when f succeeds on every element. */
  lemma {:induction false} GatherOk<T, U>(xs: seq<T>, f: T -> Result<seq<U>>)
    ensures Gather(xs, f).Ok? <==> forall i :: 0 <= i < |xs| ==> f(xs[i]).Ok?
  {
    if xs != [] {
      var init := xs[..|xs| - 1];
      GatherOk(init, f);
      assert forall i :: 0 <= i < |init| ==> init[i] == xs[i];
    }
  }

  /** A successful run outputs exactly what f outputs on the elements. */
  lemma {:induction false} GatherMembers<T, U>(xs: seq<T>, f: T -> Result<seq<U>>, u: U)
    requires Gather(xs, f).Ok?
    ensures forall i :: 0 <= i < |xs| ==> f(xs[i]).Ok?
    ensures u in Gather(xs, f).value <==> exists i :: 0 <= i < |xs| && u in f(xs[i]).value
  {
    GatherOk(xs, f);
    if xs != [] {
      var n := |xs| - 1;
      var init := xs[..n];
      GatherMembers(init, f, u);
      var front := Gather(init, f).value;
      assert Gather(xs, f).value == front + f(xs[n]).value;
      if u in front {
        var i :| 0 <= i < |init| && u in f(init[i]).value;
        assert init[i] == xs[i];
      }
      if exists i :: 0 <= i < |xs| && u in f(xs[i]).value {
        var i :| 0 <= i < |xs| && u in f(xs[i]).value;
        if i < n {
          assert init[i] == xs[i];
        }
      }
    }
  }

  /** Once a prefix has failed, the whole run fails the same way. */
  lemma {:induction false} GatherErrorPersists<T, U>(xs: seq<T>, n: nat, f: T -> Result<seq<U>>)
    requires n <= |xs| && Gather(xs[..n], f).Err?
    ensures Gather(xs, f) == Gather(xs[..n], f)
    decreases |xs| - n
  {
    if n < |xs| {
      assert xs[..n + 1][..n] == xs[..n];
      GatherErrorPersists(xs, n + 1, f);
    } else {
      assert xs[..n] == xs;
    }
  }
}
