/** Reachability in the step system of interleaved runs: runs can be put together and put into frames. */
module Reachability {
  import opened TestTree
  import I = Interleaving

  ghost predicate RunFromTo(cs: seq<I.Config>, c: I.Config, d: I.Config) {
    I.IsRun(cs) && cs[0] == c && I.Last(cs) == d
  }

  ghost predicate Reaches(c: I.Config, d: I.Config) {
    exists cs :: RunFromTo(cs, c, d)
  }

  lemma ReachesByMove(c: I.Config, d: I.Config)
    requires I.Moves(c, d)
    ensures Reaches(c, d)
  {
    assert RunFromTo([c, d], c, d);
  }

  lemma ReachesByStep(c: I.Config, d: I.Config)
    requires I.Step(c.g, c.p, d.g, d.p)
    ensures Reaches(c, d)
  {
    ReachesByMove(c, d);
  }

  lemma ReachesTransitive(c: I.Config, d: I.Config, e: I.Config)
    requires Reaches(c, d) && Reaches(d, e)
    ensures Reaches(c, e)
  {
    hide I.Moves;
    var cs :| RunFromTo(cs, c, d);
    var ds :| RunFromTo(ds, d, e);
    var run := cs + ds[1..];
    forall i | 0 <= i < |run| - 1
      ensures I.Moves(run[i], run[i + 1])
    {
      if i < |cs| - 1 {
        assert I.Moves(cs[i], cs[i + 1]);
      } else {
        assert run[i] == ds[i - |cs| + 1] && I.Moves(ds[i - |cs| + 1], ds[i - |cs| + 2]);
      }
    }
    assert RunFromTo(run, c, e);
  }

  function Framed(c: I.Config, frame: I.Frame): I.Config {
    I.Config(c.g, I.Inside(c.p, frame))
  }

  lemma MoveInFrame(c: I.Config, d: I.Config, frame: I.Frame)
    requires I.Moves(c, d)
    ensures I.Moves(Framed(c, frame), Framed(d, frame))
  {
    hide I.StartStep, I.BodyStep, I.FrameStep, I.MainStep, I.WorkerStep;
  }

  // What happens inside a loop or a decorator happens as it would outside.
  lemma ReachesInFrame(c: I.Config, d: I.Config, frame: I.Frame)
    requires Reaches(c, d)
    ensures Reaches(Framed(c, frame), Framed(d, frame))
  {
    hide I.Moves;
    var cs :| RunFromTo(cs, c, d);
    var run := seq(|cs|, i requires 0 <= i < |cs| => Framed(cs[i], frame));
    forall i | 0 <= i < |run| - 1
      ensures I.Moves(run[i], run[i + 1])
    {
      MoveInFrame(cs[i], cs[i + 1], frame);
    }
    assert RunFromTo(run, Framed(c, frame), Framed(d, frame));
  }

  lemma FrameGoesOn(g: I.Result, frame: I.Frame, g': I.Result, p': I.Proc)
    requires I.FrameStep(g, false, frame, g', p')
    ensures Reaches(I.Config(g, I.Inside(I.Done, frame)), I.Config(g', p'))
  {
    hide I.FrameStep;
    ReachesByStep(I.Config(g, I.Inside(I.Done, frame)), I.Config(g', p'));
  }

  lemma Starts(g: I.Result, t: Test, g': I.Result, p': I.Proc)
    requires I.StartStep(g, t, g', p')
    ensures Reaches(I.Config(g, I.Ready(t)), I.Config(g', p'))
  {
    hide I.StartStep;
    ReachesByStep(I.Config(g, I.Ready(t)), I.Config(g', p'));
  }
}
