/** What the two zip builders share (ahgl_admin.py:739-844): a walk over
    candidate rows in which each row is skipped, adds one member to the zip
    file, or stops the handler with a crash. A zip file is modelled as the list
    of its members; compression is not modelled. */
module Archives {

  import opened Replies
  import opened ReplayStore

  /** A zip member: its path inside the archive and the replay bytes. */
  datatype Entry = Entry(path: string, content: Bytes)

  /** The walk: `step` decides for one row; the members come out in row order. */
  function Gather<J>(js: seq<J>, step: J -> Reply<Option<Entry>>): (r: Reply<seq<Entry>>)
    ensures r.Done? ==> |r.value| <= |js|
    decreases |js|
  {
    if |js| == 0 then Done([])
    else match step(js[0])
      case Refused(e) => Refused(e)
      case Crashed(f) => Crashed(f)
      case Done(None) => Gather(js[1..], step)
      case Done(Some(e)) => Prepend(e, Gather(js[1..], step))
  }

  /** The walk finishes exactly when every row's step does; it then holds
      exactly the members the steps add. A crash is the crash of the first
      step that does not finish. */
  lemma {:induction false} GatherMeaning<J>(js: seq<J>, step: J -> Reply<Option<Entry>>)
    ensures var r := Gather(js, step);
            && (r.Done? <==> forall i :: 0 <= i < |js| ==> step(js[i]).Done?)
            && (r.Done? ==> forall e :: e in r.value <==> exists i :: 0 <= i < |js| && step(js[i]) == Done(Some(e)))
            && (r.Crashed? ==> exists i :: 0 <= i < |js| && step(js[i]) == Crashed(r.fault)
                                         && forall j :: 0 <= j < i ==> step(js[j]).Done?)
            && (r.Refused? ==> exists i :: 0 <= i < |js| && step(js[i]) == Refused(r.message))
    decreases |js|
  {
    if |js| > 0 {
      GatherMeaning(js[1..], step);
      var r := Gather(js, step);
      var rest := Gather(js[1..], step);
      assert forall i :: 1 <= i < |js| ==> js[i] == js[1..][i - 1];
      match step(js[0])
      case Refused(e) =>
      case Crashed(f) =>
      case Done(None) =>
        if r.Done? {
          forall e | e in r.value ensures exists i :: 0 <= i < |js| && step(js[i]) == Done(Some(e)) {
            var i :| 0 <= i < |js[1..]| && step(js[1..][i]) == Done(Some(e));
            assert step(js[i + 1]) == Done(Some(e));
          }
        }
        if r.Crashed? {
          var i :| 0 <= i < |js[1..]| && step(js[1..][i]) == Crashed(r.fault)
                   && forall j :: 0 <= j < i ==> step(js[1..][j]).Done?;
          assert step(js[i + 1]) == Crashed(r.fault);
          assert forall j :: 0 <= j < i + 1 ==> step(js[j]).Done? by {
            forall j | 0 <= j < i + 1 ensures step(js[j]).Done? {
              if j > 0 { assert js[j] == js[1..][j - 1]; }
            }
          }
        }
        if r.Refused? {
          var i :| 0 <= i < |js[1..]| && step(js[1..][i]) == Refused(r.message);
          assert step(js[i + 1]) == Refused(r.message);
        }
      case Done(Some(e0)) =>
        assert r == Prepend(e0, rest);
        if r.Done? {
          forall e | e in r.value ensures exists i :: 0 <= i < |js| && step(js[i]) == Done(Some(e)) {
            if e != e0 {
              assert e in rest.value;
              var i :| 0 <= i < |js[1..]| && step(js[1..][i]) == Done(Some(e));
              assert step(js[i + 1]) == Done(Some(e));
            }
          }
        }
        if r.Crashed? {
          var i :| 0 <= i < |js[1..]| && step(js[1..][i]) == Crashed(r.fault)
                   && forall j :: 0 <= j < i ==> step(js[1..][j]).Done?;
          assert step(js[i + 1]) == Crashed(r.fault);
          assert forall j :: 0 <= j < i + 1 ==> step(js[j]).Done? by {
            forall j | 0 <= j < i + 1 ensures step(js[j]).Done? {
              if j > 0 { assert js[j] == js[1..][j - 1]; }
            }
          }
        }
        if r.Refused? {
          var i :| 0 <= i < |js[1..]| && step(js[1..][i]) == Refused(r.message);
          assert step(js[i + 1]) == Refused(r.message);
        }
    }
  }

  /** Two step functions that agree wherever the first one finishes give the
      same archive whenever the first walk finishes. */
  lemma {:induction false} GatherAgrees<J>(js: seq<J>, f: J -> Reply<Option<Entry>>, g: J -> Reply<Option<Entry>>)
    requires forall i :: 0 <= i < |js| && f(js[i]).Done? ==> g(js[i]) == f(js[i])
    ensures Gather(js, f).Done? ==> Gather(js, g) == Gather(js, f)
    decreases |js|
  {
    if |js| > 0 {
      assert forall i :: 1 <= i < |js| ==> js[i] == js[1..][i - 1];
      GatherAgrees(js[1..], f, g);
    }
  }

  /** Walking `a + b` walks `a` and then `b`: when both finish, the members of
      `a` come first; otherwise the first walk that stops decides the result. */
  lemma {:induction false} GatherAppend<J>(a: seq<J>, b: seq<J>, step: J -> Reply<Option<Entry>>)
    ensures !Gather(a, step).Done? ==> Gather(a + b, step) == Gather(a, step)
    ensures Gather(a, step).Done? && !Gather(b, step).Done? ==> Gather(a + b, step) == Gather(b, step)
    ensures Gather(a, step).Done? && Gather(b, step).Done?
            ==> Gather(a + b, step) == Done(Gather(a, step).value + Gather(b, step).value)
    decreases |a|
  {
    if |a| == 0 {
      assert a + b == b;
      assert Gather(a, step) == Done([]);
      if Gather(b, step).Done? {
        assert [] + Gather(b, step).value == Gather(b, step).value;
      }
    } else {
      assert (a + b)[0] == a[0];
      assert (a + b)[1..] == a[1..] + b;
      GatherAppend(a[1..], b, step);
      match step(a[0])
      case Refused(e) =>
      case Crashed(f) =>
      case Done(None) =>
      case Done(Some(e0)) =>
        if Gather(a, step).Done? && Gather(b, step).Done? {
          assert Gather(a, step).value == [e0] + Gather(a[1..], step).value;
          assert [e0] + (Gather(a[1..], step).value + Gather(b, step).value)
                 == Gather(a, step).value + Gather(b, step).value;
        }
    }
  }

  /** The members come out in row order: in a finished walk, a member added by
      an earlier row sits before one added by a later row. */
  lemma GatherKeepsOrder<J>(js: seq<J>, step: J -> Reply<Option<Entry>>, i: int, k: int, e1: Entry, e2: Entry)
    requires 0 <= i < k < |js|
    requires step(js[i]) == Done(Some(e1)) && step(js[k]) == Done(Some(e2))
    requires Gather(js, step).Done?
    ensures var v := Gather(js, step).value;
            exists p, q :: 0 <= p < q < |v| && v[p] == e1 && v[q] == e2
  {
    var a, b := js[..k], js[k..];
    assert js == a + b;
    GatherMeaning(js, step);
    GatherMeaning(a, step);
    GatherMeaning(b, step);
    assert forall n :: 0 <= n < |a| ==> a[n] == js[n];
    assert forall n :: 0 <= n < |b| ==> b[n] == js[k + n];
    GatherAppend(a, b, step);
    var va, vb := Gather(a, step).value, Gather(b, step).value;
    assert step(a[i]) == Done(Some(e1));
    assert e1 in va;
    var p :| 0 <= p < |va| && va[p] == e1;
    assert b[0] == js[k];
    assert Gather(b, step) == Prepend(e2, Gather(b[1..], step));
    assert vb[0] == e2;
    var v := Gather(js, step).value;
    assert v == va + vb;
    assert v[p] == e1 && v[|va|] == e2;
  }
}
