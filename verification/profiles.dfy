/** The profile enumeration of the controller interface, as functions of the
    replies the device gives: which names are stored, where the walk stops,
    how many replies it reads and which commands it sends. */
module ProfileScan {
  import opened Text
  import opened Commands

  /** `range(1, 40)`: the walk asks for profiles 1 to 39, never 40. */
  const ProfileLimit := 40

  /** A reply cleaned as the interface cleans profile names: whitespace at
      both ends stripped, then every double quote removed. */
  function CleanName(reply: string): (r: string)
    ensures '"' !in r
  {
    RemoveQuotes(Strip(reply))
  }

  lemma {:induction false} RemoveQuotesEmpty(s: string)
    ensures RemoveQuotes(s) == [] <==> forall j :: 0 <= j < |s| ==> s[j] == '"'
  {
    if s != [] {
      RemoveQuotesEmpty(s[1..]);
      if s[0] == '"' {
        assert forall j :: 1 <= j < |s| ==> s[j] == s[1..][j - 1];
      }
    }
  }

  /** A cleaned name is empty exactly when the stripped reply holds nothing but
      double quotes; so a reply of only whitespace and quotes can still give a
      name (`" "`, with the space inside the quotes, gives a single space). */
  lemma CleanNameEmpty(reply: string)
    ensures CleanName(reply) == [] <==> forall j :: 0 <= j < |Strip(reply)| ==> Strip(reply)[j] == '"'
    ensures CleanName("\" \"") == " "
  {
    RemoveQuotesEmpty(Strip(reply));
    var q := "\" \"";
    assert StripStart(q) == q && StripEnd(q) == q;
    RemoveQuotesConcat("\"", " " + "\"");
    RemoveQuotesConcat(" ", "\"");
    RemoveQuotesNone(" ");
    assert "\"" + (" " + "\"") == q;
  }

  /** Every reply cleaned, in order. */
  function CleanAll(replies: seq<string>): (r: seq<string>)
    ensures |r| == |replies|
  {
    if replies == [] then [] else [CleanName(replies[0])] + CleanAll(replies[1..])
  }

  lemma {:induction false} CleanAllAt(replies: seq<string>, j: nat)
    requires j < |replies|
    ensures CleanAll(replies)[j] == CleanName(replies[j])
  {
    if j > 0 {
      CleanAllAt(replies[1..], j - 1);
    }
  }

  /** Why the walk ended: the limit was reached, a cleaned name was empty, or
      no reply came (the channel timed out). */
  datatype Stop = Exhausted | EmptyName | NoReply

  /** The names stored (for profiles 1, 2, ... in order) and why the walk ended. */
  datatype ScanResult = ScanResult(names: seq<string>, stop: Stop) {

    /** Replies read: one per stored name, plus the one that ended the walk if it was empty. */
    function Consumed(): nat {
      |names| + (if stop == EmptyName then 1 else 0)
    }

    /** Profiles selected: every stored one, plus the one that ended the walk early. */
    function Visited(): nat {
      |names| + (if stop == Exhausted then 0 else 1)
    }

    function Prepend(name: string): ScanResult {
      ScanResult([name] + names, stop)
    }
  }

  /** The walk over `budget` more profiles, given the cleaned names of the
      replies still queued, one per profile in order. */
  function Scan(cleaned: seq<string>, budget: nat): ScanResult
    decreases budget
  {
    if budget == 0 then ScanResult([], Exhausted)
    else if cleaned == [] then ScanResult([], NoReply)
    else if cleaned[0] == [] then ScanResult([], EmptyName)
    else Scan(cleaned[1..], budget - 1).Prepend(cleaned[0])
  }

  /** The walk stated without recursion: it stores the cleaned names in order,
      all non-empty, and stops at the limit, at the first empty name, or when
      the replies run out, whichever comes first. */
  ghost predicate StopsAtFirstEmpty(cleaned: seq<string>, budget: nat, r: ScanResult) {
    && |r.names| <= budget
    && |r.names| <= |cleaned|
    && (forall j :: 0 <= j < |r.names| ==> r.names[j] == cleaned[j] && cleaned[j] != [])
    && (r.stop == Exhausted <==> |r.names| == budget)
    && (r.stop == NoReply ==> |r.names| == |cleaned|)
    && (r.stop == EmptyName ==> |r.names| < |cleaned| && cleaned[|r.names|] == [])
  }

  lemma {:induction false} ScanStopsAtFirstEmpty(cleaned: seq<string>, budget: nat)
    ensures StopsAtFirstEmpty(cleaned, budget, Scan(cleaned, budget))
    decreases budget
  {
    if budget > 0 && cleaned != [] && cleaned[0] != [] {
      ScanStopsAtFirstEmpty(cleaned[1..], budget - 1);
      var rest := Scan(cleaned[1..], budget - 1);
      var r := Scan(cleaned, budget);
      assert r.names == [cleaned[0]] + rest.names;
      assert forall j :: 1 <= j < |r.names| ==> r.names[j] == rest.names[j - 1];
    }
  }

  /** Only one walk fits that description. */
  lemma {:induction false} StopsAtFirstEmptyUnique(cleaned: seq<string>, budget: nat, r: ScanResult)
    requires StopsAtFirstEmpty(cleaned, budget, r)
    ensures r == Scan(cleaned, budget)
    decreases budget
  {
    if budget == 0 {
    } else if cleaned == [] {
    } else if cleaned[0] == [] {
    } else {
      assert |r.names| > 0;
      var rest := ScanResult(r.names[1..], r.stop);
      assert forall j :: 0 <= j < |rest.names| ==> rest.names[j] == r.names[j + 1];
      assert StopsAtFirstEmpty(cleaned[1..], budget - 1, rest);
      StopsAtFirstEmptyUnique(cleaned[1..], budget - 1, rest);
      assert r.names == [r.names[0]] + rest.names;
    }
  }

  /** Where the walk is when it ends, read as the walk's result: every name
      stored so far is the cleaned reply of its profile, and the walk ended at
      the limit, at an empty name, or with no reply left. */
  lemma ScanAtExit(cleaned: seq<string>, stored: seq<string>, stop: Stop)
    requires |stored| <= |cleaned| && stored == cleaned[..|stored|]
    requires forall j :: 0 <= j < |stored| ==> cleaned[j] != []
    requires stop == Exhausted ==> |stored| == ProfileLimit - 1
    requires stop == EmptyName ==> |stored| < ProfileLimit - 1 && |stored| < |cleaned| && cleaned[|stored|] == []
    requires stop == NoReply ==> |stored| < ProfileLimit - 1 && |stored| == |cleaned|
    ensures Scan(cleaned, ProfileLimit - 1) == ScanResult(stored, stop)
  {
    var r := ScanResult(stored, stop);
    assert forall j :: 0 <= j < |stored| ==> stored[j] == cleaned[j];
    assert StopsAtFirstEmpty(cleaned, ProfileLimit - 1, r);
    StopsAtFirstEmptyUnique(cleaned, ProfileLimit - 1, r);
  }

  /** The walk reads no more replies than are queued and selects no more
      profiles than its budget. */
  lemma ScanBounds(cleaned: seq<string>, budget: nat)
    ensures Scan(cleaned, budget).Consumed() <= |cleaned|
    ensures Scan(cleaned, budget).Visited() <= budget
    ensures Scan(cleaned, budget).Consumed() <= Scan(cleaned, budget).Visited()
  {
    ScanStopsAtFirstEmpty(cleaned, budget);
  }

  /** The walk `get_profiles` makes over the queued replies: profiles 1 to 39. */
  function Walk(replies: seq<string>): ScanResult {
    Scan(CleanAll(replies), ProfileLimit - 1)
  }

  /** The state after the walk has stored names for profiles 1 to `k`: they
      are the first `k` cleaned replies, none of them empty, each read from
      the queue and each announced by its selection and name query. */
  ghost predicate WalkedSoFar(r0: seq<string>, s0: seq<Event>, p0: map<int, string>, k: nat,
                              replies: seq<string>, sent: seq<Event>, profiles: map<int, string>)
  {
    && k <= |r0|
    && (forall j :: 0 <= j < k ==> CleanAll(r0)[j] != [])
    && profiles == Registry(p0, CleanAll(r0)[..k])
    && replies == r0[k..] && sent == s0 + ScanLog(k)
  }

  /** The state the walk leaves behind, read against its result on the replies
      `r0` it started from: the registry `p0` extended with the stored names,
      the replies it read gone from the queue, its commands after the log
      `s0`, and a failure exactly when no reply came. */
  ghost predicate WalkDone(r0: seq<string>, s0: seq<Event>, p0: map<int, string>, failed: bool,
                           replies: seq<string>, sent: seq<Event>, profiles: map<int, string>)
  {
    var s := Walk(r0);
    && profiles == Registry(p0, s.names)
    && s.Consumed() <= |r0| && replies == r0[s.Consumed()..]
    && sent == s0 + ScanLog(s.Visited())
    && (failed <==> s.stop == NoReply)
  }

  /** How the walk's loop ends, read as the walk's result: `k` names stored,
      then the limit, an empty name, or no reply. */
  lemma WalkResult(r0: seq<string>, s0: seq<Event>, p0: map<int, string>, k: nat, stop: Stop, failed: bool,
                   replies: seq<string>, sent: seq<Event>, profiles: map<int, string>)
    requires k <= |CleanAll(r0)| && forall j :: 0 <= j < k ==> CleanAll(r0)[j] != []
    requires profiles == Registry(p0, CleanAll(r0)[..k])
    requires stop == Exhausted ==>
      && k == ProfileLimit - 1 && !failed && replies == r0[k..] && sent == s0 + ScanLog(k)
    requires stop == EmptyName ==>
      && k < ProfileLimit - 1 && k < |r0| && CleanAll(r0)[k] == [] && !failed
      && replies == r0[k + 1..] && sent == s0 + ScanLog(k + 1)
    requires stop == NoReply ==>
      && k < ProfileLimit - 1 && k == |r0| && failed && replies == r0[k..] && sent == s0 + ScanLog(k + 1)
    ensures WalkDone(r0, s0, p0, failed, replies, sent, profiles)
  {
    var cleaned := CleanAll(r0);
    ScanAtExit(cleaned, cleaned[..k], stop);
    var s := Walk(r0);
    assert s.names == cleaned[..k] && |s.names| == k && s.stop == stop;
    match stop
    case Exhausted =>
      assert s.Consumed() == k && s.Visited() == k;
    case EmptyName =>
      assert s.Consumed() == k + 1 && s.Visited() == k + 1;
    case NoReply =>
      assert s.Consumed() == k && s.Visited() == k + 1;
  }

  /** One more profile stored: its selection and name query logged, its
      reply read, its cleaned name entered. */
  lemma WalkStep(r0: seq<string>, s0: seq<Event>, p0: map<int, string>, k: nat,
                 replies: seq<string>, sent: seq<Event>, profiles: map<int, string>)
    requires WalkedSoFar(r0, s0, p0, k, replies, sent, profiles)
    requires k < |r0| && CleanName(r0[k]) != []
    ensures WalkedSoFar(r0, s0, p0, k + 1, replies[1..],
      sent + [Command(ProfileSelect(k + 1))] + [Command(ProfileNameQuery)],
      profiles[k + 1 := CleanName(r0[k])])
  {
    var cleaned := CleanAll(r0);
    CleanAllAt(r0, k);
    ScanLogStep(s0, k);
    assert cleaned[..k + 1][..k] == cleaned[..k];
    assert r0[k..][1..] == r0[k + 1..];
  }

  /** The walk ends at an empty name. */
  lemma WalkEndsEmpty(r0: seq<string>, s0: seq<Event>, p0: map<int, string>, k: nat,
                      replies: seq<string>, sent: seq<Event>, profiles: map<int, string>)
    requires WalkedSoFar(r0, s0, p0, k, replies, sent, profiles)
    requires k < ProfileLimit - 1 && k < |r0| && CleanName(r0[k]) == []
    ensures WalkDone(r0, s0, p0, false, replies[1..],
      sent + [Command(ProfileSelect(k + 1))] + [Command(ProfileNameQuery)], profiles)
  {
    CleanAllAt(r0, k);
    ScanLogStep(s0, k);
    assert r0[k..][1..] == r0[k + 1..];
    WalkResult(r0, s0, p0, k, EmptyName, false, replies[1..],
      sent + [Command(ProfileSelect(k + 1))] + [Command(ProfileNameQuery)], profiles);
  }

  /** The walk ends when no reply comes. */
  lemma WalkEndsUnanswered(r0: seq<string>, s0: seq<Event>, p0: map<int, string>, k: nat,
                           replies: seq<string>, sent: seq<Event>, profiles: map<int, string>)
    requires WalkedSoFar(r0, s0, p0, k, replies, sent, profiles)
    requires k < ProfileLimit - 1 && replies == []
    ensures WalkDone(r0, s0, p0, true, replies,
      sent + [Command(ProfileSelect(k + 1))] + [Command(ProfileNameQuery)], profiles)
  {
    ScanLogStep(s0, k);
    WalkResult(r0, s0, p0, k, NoReply, true, replies,
      sent + [Command(ProfileSelect(k + 1))] + [Command(ProfileNameQuery)], profiles);
  }

  /** The walk ends at the limit. */
  lemma WalkEndsAtLimit(r0: seq<string>, s0: seq<Event>, p0: map<int, string>,
                        replies: seq<string>, sent: seq<Event>, profiles: map<int, string>)
    requires WalkedSoFar(r0, s0, p0, ProfileLimit - 1, replies, sent, profiles)
    ensures WalkDone(r0, s0, p0, false, replies, sent, profiles)
  {
    WalkResult(r0, s0, p0, ProfileLimit - 1, Exhausted, false, replies, sent, profiles);
  }

  /** The registry after storing `names` for profiles 1, 2, ... one at a time,
      in ascending order, into `m`. */
  function Registry(m: map<int, string>, names: seq<string>): map<int, string> {
    if names == [] then m else Registry(m, names[..|names| - 1])[|names| := names[|names| - 1]]
  }

  /** The registry maps profile `p` to the `p`-th name for every stored
      profile, and holds exactly what it held before for every other key:
      nothing is removed and nothing past the stored names is touched. */
  lemma {:induction false} RegistryLookup(m: map<int, string>, names: seq<string>, p: int)
    ensures 1 <= p <= |names| ==> p in Registry(m, names) && Registry(m, names)[p] == names[p - 1]
    ensures !(1 <= p <= |names|) ==> (p in Registry(m, names) <==> p in m)
    ensures !(1 <= p <= |names|) && p in m ==> Registry(m, names)[p] == m[p]
  {
    if names != [] {
      RegistryLookup(m, names[..|names| - 1], p);
    }
  }

  /** What the walk leaves in the registry `p0`: profile `p` maps to the
      cleaned `p`-th reply, never empty, for each of the (at most 39) stored
      profiles; every other key is as it was. The walk stops at the first empty
      name, at profile 39, or when the replies run out. */
  lemma WalkRegistry(r0: seq<string>, p0: map<int, string>, p: int)
    ensures |Walk(r0).names| <= ProfileLimit - 1 && |Walk(r0).names| <= |r0|
    ensures 1 <= p <= |Walk(r0).names| ==>
      && p in Registry(p0, Walk(r0).names)
      && Registry(p0, Walk(r0).names)[p] == CleanName(r0[p - 1]) != []
    ensures !(1 <= p <= |Walk(r0).names|) ==>
      && (p in Registry(p0, Walk(r0).names) <==> p in p0)
      && (p in p0 ==> Registry(p0, Walk(r0).names)[p] == p0[p])
    ensures Walk(r0).stop == EmptyName ==>
      |Walk(r0).names| < |r0| && CleanName(r0[|Walk(r0).names|]) == []
    ensures Walk(r0).stop == Exhausted <==> |Walk(r0).names| == ProfileLimit - 1
    ensures Walk(r0).stop == NoReply ==> |Walk(r0).names| == |r0|
  {
    var s := Walk(r0);
    ScanStopsAtFirstEmpty(CleanAll(r0), ProfileLimit - 1);
    RegistryLookup(p0, s.names, p);
    if 1 <= p <= |s.names| {
      CleanAllAt(r0, p - 1);
    }
    if s.stop == EmptyName {
      CleanAllAt(r0, |s.names|);
    }
  }

  /** The commands of the first `count` steps of the walk. */
  function ScanLog(count: nat): seq<Event> {
    if count == 0 then []
    else ScanLog(count - 1) + [Command(ProfileSelect(count)), Command(ProfileNameQuery)]
  }

  /** The log after one more step of the walk. */
  lemma ScanLogStep(before: seq<Event>, count: nat)
    ensures before + ScanLog(count) + [Command(ProfileSelect(count + 1))] + [Command(ProfileNameQuery)]
      == before + ScanLog(count + 1)
  {
    var x, y := Command(ProfileSelect(count + 1)), Command(ProfileNameQuery);
    assert before + ScanLog(count) + [x] + [y] == before + (ScanLog(count) + [x, y]);
  }

  /** For each profile in ascending order the walk selects it, then asks for its name. */
  lemma {:induction false} ScanLogAt(count: nat, j: nat)
    requires j < count
    ensures |ScanLog(count)| == 2 * count
    ensures ScanLog(count)[2 * j] == Command(ProfileSelect(j + 1))
    ensures ScanLog(count)[2 * j + 1] == Command(ProfileNameQuery)
  {
    if j < count - 1 {
      ScanLogAt(count - 1, j);
    } else if count > 1 {
      ScanLogAt(count - 1, 0);
    }
  }

  lemma CleanQuotedName()
    ensures CleanName("\"Ramp1\"") == "Ramp1"
  {
    var a := "\"Ramp1\"";
    assert StripStart(a) == a && StripEnd(a) == a;
    RemoveQuotesConcat("\"", "Ramp1" + "\"");
    RemoveQuotesConcat("Ramp1", "\"");
    RemoveQuotesNone("Ramp1");
    assert "\"" + ("Ramp1" + "\"") == a;
  }

  lemma CleanPaddedName()
    ensures CleanName(" Ramp2\r\n") == "Ramp2"
  {
    var b := " Ramp2\r\n";
    var c := "Ramp2\r\n";
    assert b[1..] == c && StripStart(c) == c;
    assert StripStart(b) == c;
    assert c[..|c| - 1] == "Ramp2\r" && "Ramp2\r"[..5] == "Ramp2";
    assert StripEnd("Ramp2") == "Ramp2";
    assert StripEnd(c) == "Ramp2";
    RemoveQuotesNone("Ramp2");
  }

  /** The example of a device with profiles "Ramp1" and "Ramp2" (one of them
      quoted, the other padded) and no third: the walk stores two names and
      stops at profile 3. */
  lemma ScanExample()
    ensures Walk(["\"Ramp1\"", " Ramp2\r\n", ""]) == ScanResult(["Ramp1", "Ramp2"], EmptyName)
  {
    CleanExample();
    var cl := ["Ramp1", "Ramp2", ""];
    assert cl[1..] == ["Ramp2", ""] && cl[1..][1..] == [""];
    assert Scan([""], ProfileLimit - 3) == ScanResult([], EmptyName);
    assert Scan(["Ramp2", ""], ProfileLimit - 2) == ScanResult(["Ramp2"], EmptyName);
  }

  lemma CleanExample()
    ensures CleanAll(["\"Ramp1\"", " Ramp2\r\n", ""]) == ["Ramp1", "Ramp2", ""]
  {
    CleanQuotedName();
    CleanPaddedName();
    assert CleanName("") == [] by {
      assert Strip("") == [];
    }
    CleanAllThree("\"Ramp1\"", " Ramp2\r\n", "");
  }

  lemma CleanAllThree(x: string, y: string, z: string)
    ensures CleanAll([x, y, z]) == [CleanName(x), CleanName(y), CleanName(z)]
  {
    var zs, yzs := [z], [y, z];
    assert zs[1..] == [] && CleanAll(zs) == [CleanName(z)];
    assert yzs[1..] == zs && CleanAll(yzs) == [CleanName(y)] + CleanAll(zs);
    assert [x, y, z][1..] == yzs && CleanAll([x, y, z]) == [CleanName(x)] + CleanAll(yzs);
  }
}
