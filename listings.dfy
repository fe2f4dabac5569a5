/** The strings the scheduler derives and renders (`src/scheduler/download_scheduler.rs`):
    the name `add` gives a job, the lines of `stringify_list` and the search of
    `get_info`. */
module Listings {
  import opened Prelude
  import opened Text
  import opened DownloadObjects

  // ---------------------------------------------------------------------------
  // Naming rule of `add`

  /** The job name `add` derives: the text after the last `/` of the URL, or with a
      custom name, that name plus `.` plus the text after the last `.` of that text.
      Both `rsplit_once` calls are unwrapped, so a URL without `/`, or a custom name
      for a last segment without `.`, panics. */
  function DeriveName(url: string, customName: Option<string>): (r: Outcome<string>)
    ensures customName.None? ==> (r.Returns? <==> '/' in url)
    ensures customName.None? && r.Returns? ==> AfterLast(url, "/", r.value)
    ensures customName.Some? ==> (r.Returns? <==> exists seg :: AfterLast(url, "/", seg) && '.' in seg)
    ensures customName.Some? && r.Returns? ==>
              exists seg, ext :: AfterLast(url, "/", seg) && AfterLast(seg, ".", ext)
                                 && r.value == customName.value + "." + ext
  {
    AbsentChar(url, '/');
    match RSplitOnce(url, "/")
    case None =>
      AbsentNoAfterLast(url, "/");
      Panics
    case Some((_, fname)) =>
      AfterLastIsUnique(url, "/", fname);
      AbsentChar(fname, '.');
      match customName
      case None => Returns(fname)
      case Some(cn) =>
        match RSplitOnce(fname, ".")
        case None => Panics
        case Some((_, ext)) => Returns(cn + "." + ext)
  }

  // ---------------------------------------------------------------------------
  // Rendering of listing and info lines

  /** One listing line, `name  ( _ / size)  state\r\n`. `total_size` is unwrapped,
      so a job without a size panics. */
  function JobLine(job: DownloadObject): (r: Outcome<string>)
    ensures r.Panics? <==> job.totalSize.None?
  {
    match job.totalSize
    case None => Panics
    case Some(size) =>
      Returns(job.name + "  ( _ / " + NatToString(size) + ")  " + StateToString(job.state) + "\r\n")
  }

  /** A common prefix cancels. */
  lemma PrefixCancel(p: string, x: string, y: string)
    requires p + x == p + y
    ensures x == y
  {
    assert x == (p + x)[|p|..];
  }

  /** A common suffix cancels. */
  lemma SuffixCancel(x: string, y: string, t: string)
    requires x + t == y + t
    ensures x == y
  {
    assert x == (x + t)[..|x|];
  }

  /** The first `)` of a digit string followed by a `)` is the one after the digits. */
  lemma CloseAfterDigits(d: string, u: string)
    requires forall i :: 0 <= i < |d| ==> IsDigit(d[i])
    requires |u| > 0 && u[0] == ')'
    ensures FirstIndexFrom(d + u, ")", 0) == Some(|d|)
  {
    var s := d + u;
    assert s[|d|..|d| + 1] == ")";
    assert OccursAt(s, ")", |d|);
    forall j | 0 <= j < |d| ensures !OccursAt(s, ")", j) {
      assert s[j..j + 1][0] == d[j];
    }
  }

  /** Two digit strings each followed by a `)` can only be equal as a whole when the
      digits and what follows are. */
  lemma {:induction false} DigitsThenClose(da: string, db: string, u: string, v: string)
    requires forall i :: 0 <= i < |da| ==> IsDigit(da[i])
    requires forall i :: 0 <= i < |db| ==> IsDigit(db[i])
    requires |u| > 0 && u[0] == ')' && |v| > 0 && v[0] == ')'
    requires da + u == db + v
    ensures da == db && u == v
  {
    var s := da + u;
    CloseAfterDigits(da, u);
    CloseAfterDigits(db, v);
    assert da == s[..|da|] && db == s[..|db|];
    assert u == s[|da|..] && v == s[|db|..];
  }

  /** A listing line split after its name, around its size digits. */
  lemma LineShape(p: string, digits: string, state: string)
    ensures p + digits + ")  " + state + "\r\n" == p + (digits + (")  " + (state + "\r\n")))
  {
  }

  /** A job's line determines its size and its state: two jobs of the same name
      with the same line agree on both. */
  lemma {:induction false} JobLineDeterminesSizeAndState(a: DownloadObject, b: DownloadObject)
    requires a.name == b.name
    requires JobLine(a).Returns? && JobLine(a) == JobLine(b)
    ensures a.totalSize == b.totalSize && a.state == b.state
  {
    var da, db := NatToString(a.totalSize.value), NatToString(b.totalSize.value);
    var sa, sb := StateToString(a.state), StateToString(b.state);
    var p := a.name + "  ( _ / ";
    LineShape(p, da, sa);
    LineShape(p, db, sb);
    PrefixCancel(p, da + (")  " + (sa + "\r\n")), db + (")  " + (sb + "\r\n")));
    DigitsThenClose(da, db, ")  " + (sa + "\r\n"), ")  " + (sb + "\r\n"));
    NatToStringInjective(a.totalSize.value, b.totalSize.value);
    PrefixCancel(")  ", sa + "\r\n", sb + "\r\n");
    SuffixCancel(sa, sb, "\r\n");
    StateToStringInjective(a.state, b.state);
  }

  /** The lines of `jobs` concatenated in order; it panics when some job has no size. */
  function RenderJobs(jobs: seq<DownloadObject>): (r: Outcome<string>)
    ensures r.Panics? <==> exists i :: 0 <= i < |jobs| && jobs[i].totalSize.None?
  {
    if jobs == [] then Returns("")
    else
      var front := jobs[..|jobs| - 1];
      assert forall i :: 0 <= i < |front| ==> front[i] == jobs[i];
      match RenderJobs(front)
      case Panics => Panics
      case Returns(s) =>
        match JobLine(jobs[|jobs| - 1])
        case Panics => Panics
        case Returns(line) => Returns(s + line)
  }

  /** The closure of `get_info`: the line of `job` if it is named `name`. */
  function CheckJob(job: DownloadObject, name: string): (r: Outcome<Option<string>>)
    ensures job.name != name ==> r == Returns(None)
    ensures job.name == name ==> (r.Panics? <==> job.totalSize.None?)
    ensures job.name == name && r.Returns? ==> r.value == Some(JobLine(job).value)
  {
    if job.name == name then
      match JobLine(job)
      case Panics => Panics
      case Returns(line) => Returns(Some(line))
    else Returns(None)
  }

  /** `get_info`'s search over jobs taken in this order: the answer for the first
      job whose check is not `None`. */
  function FindInfo(jobs: seq<DownloadObject>, name: string): (r: Outcome<Option<string>>)
    ensures r != Returns(None) ==> exists i :: 0 <= i < |jobs| && jobs[i].name == name && r == CheckJob(jobs[i], name)
    decreases |jobs|
  {
    if jobs == [] then Returns(None)
    else
      var c := CheckJob(jobs[0], name);
      if c != Returns(None) then c else FindInfo(jobs[1..], name)
  }

  ghost predicate NoneNamed(jobs: seq<DownloadObject>, name: string)
  {
    forall i :: 0 <= i < |jobs| ==> jobs[i].name != name
  }

  /** `i` is the first position of a job named `name`. */
  ghost predicate FirstNamed(jobs: seq<DownloadObject>, name: string, i: int)
  {
    0 <= i < |jobs| && jobs[i].name == name && forall j :: 0 <= j < i ==> jobs[j].name != name
  }

  /** The search finds nothing exactly when no job has the name. */
  lemma {:induction false} FindInfoNone(jobs: seq<DownloadObject>, name: string)
    ensures FindInfo(jobs, name) == Returns(None) <==> NoneNamed(jobs, name)
  {
    if jobs != [] {
      FindInfoNone(jobs[1..], name);
      if jobs[0].name != name {
        assert NoneNamed(jobs, name) <==> NoneNamed(jobs[1..], name) by {
          if NoneNamed(jobs[1..], name) {
            forall i | 0 <= i < |jobs| ensures jobs[i].name != name {
              if i > 0 { assert jobs[1..][i - 1] == jobs[i]; }
            }
          }
        }
      }
    }
  }

  /** The search answers with the first job that has the name. */
  lemma {:induction false} FindInfoFirst(jobs: seq<DownloadObject>, name: string, i: int)
    requires FirstNamed(jobs, name, i)
    ensures FindInfo(jobs, name) == CheckJob(jobs[i], name)
  {
    if i > 0 {
      assert jobs[0].name != name;
      assert FirstNamed(jobs[1..], name, i - 1) by {
        forall j | 0 <= j < i - 1 ensures jobs[1..][j].name != name {
          assert jobs[1..][j] == jobs[j + 1];
        }
      }
      FindInfoFirst(jobs[1..], name, i - 1);
    }
  }

  /** Searching two lists one after the other: the first list answers when it has
      the name, the second otherwise. */
  lemma {:induction false} FindInfoConcat(a: seq<DownloadObject>, b: seq<DownloadObject>, name: string)
    ensures FindInfo(a + b, name) == if NoneNamed(a, name) then FindInfo(b, name) else FindInfo(a, name)
  {
    if a == [] {
      assert a + b == b;
    } else {
      assert (a + b)[0] == a[0];
      assert (a + b)[1..] == a[1..] + b;
      FindInfoConcat(a[1..], b, name);
      if a[0].name != name {
        assert NoneNamed(a, name) <==> NoneNamed(a[1..], name) by {
          if NoneNamed(a[1..], name) {
            forall i | 0 <= i < |a| ensures a[i].name != name {
              if i > 0 { assert a[1..][i - 1] == a[i]; }
            }
          }
        }
      }
    }
  }

  /** `get_info` prefers the done list: when a done job has the name, the answer is
      the line of the first such done job whatever the other lists hold. */
  lemma InfoPrefersDone(done: seq<DownloadObject>, waiting: seq<DownloadObject>, active: seq<DownloadObject>, name: string, i: int)
    requires FirstNamed(done, name, i)
    ensures FindInfo(done + waiting + active, name) == CheckJob(done[i], name)
  {
    assert !NoneNamed(done, name);
    assert !NoneNamed(done + waiting, name) by {
      assert (done + waiting)[i] == done[i];
    }
    FindInfoConcat(done + waiting, active, name);
    FindInfoConcat(done, waiting, name);
    FindInfoFirst(done, name, i);
  }

  /** The loop of `stringify_list` over a queue: the lines of its jobs in order. */
  method RenderEach(list: seq<DownloadObject>) returns (ret: Outcome<string>)
    ensures ret == RenderJobs(list)
  {
    var acc := "";
    for i := 0 to |list|
      invariant RenderJobs(list[..i]) == Returns(acc)
    {
      assert list[..i + 1][..i] == list[..i];
      var line := JobLine(list[i]);
      if line.Panics? {
        assert list[..i + 1][i].totalSize.None?;
        return Panics;
      }
      acc := acc + line.value;
    }
    assert list[..|list|] == list;
    return Returns(acc);
  }

  /** A loop of `get_info` over a queue: the first answer its check gives. */
  method SearchEach(list: seq<DownloadObject>, name: string) returns (info: Outcome<Option<string>>)
    ensures info == FindInfo(list, name)
  {
    for i := 0 to |list|
      invariant FindInfo(list[i..], name) == FindInfo(list, name)
    {
      assert list[i..][0] == list[i] && list[i..][1..] == list[i + 1..];
      var c := CheckJob(list[i], name);
      if c != Returns(None) {
        return c;
      }
    }
    assert list[|list|..] == [];
    return Returns(None);
  }
}
