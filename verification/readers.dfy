/** The pure parts of the Reddit and Twitter readers: flattening a Reddit
    thread into the comments to read aloud, and handing each user a voice. The
    file loading, the scraping and the speech are not modelled; shuffles are
    arbitrary permutations chosen by the caller or by the method. */
module Readers {
  import opened Wrappers
  import opened Dicts
  import opened Values

  /** No element occurs twice. */
  predicate Distinct<T(==)>(xs: seq<T>) {
    forall i, j :: 0 <= i < j < |xs| ==> xs[i] != xs[j]
  }

  /** `ys` is `xs` in some order. */
  predicate IsPermutation<T(==)>(ys: seq<T>, xs: seq<T>) {
    multiset(ys) == multiset(xs)
  }

  /** A sequence without repeats holds each element at most once. */
  lemma {:induction false} DistinctAtMostOnce<T>(xs: seq<T>)
    requires Distinct(xs)
    ensures forall x :: multiset(xs)[x] <= 1
    decreases |xs|
  {
    if |xs| > 0 {
      var t := xs[1..];
      assert xs == [xs[0]] + t;
      assert Distinct(t) by {
        forall i, j | 0 <= i < j < |t| ensures t[i] != t[j] {
          assert t[i] == xs[i + 1] && t[j] == xs[j + 1];
        }
      }
      DistinctAtMostOnce(t);
      assert xs[0] !in multiset(t) by {
        forall j | 0 <= j < |t| ensures t[j] != xs[0] {
          assert t[j] == xs[j + 1];
        }
      }
      assert multiset(xs) == multiset{xs[0]} + multiset(t);
    }
  }

  /** An element held at most once sits at one position only. */
  lemma OncePerPosition<T>(ys: seq<T>, i: nat, j: nat)
    requires i < j < |ys| && multiset(ys)[ys[i]] <= 1
    ensures ys[i] != ys[j]
  {
    var front := ys[..j];
    assert ys == front + [ys[j]] + ys[j + 1..];
    assert front[i] == ys[i];
    assert multiset(ys)[ys[j]] >= multiset(front)[ys[j]] + 1;
  }

  /** Reordering keeps a sequence free of repeats. */
  lemma PermutationDistinct<T>(ys: seq<T>, xs: seq<T>)
    requires IsPermutation(ys, xs) && Distinct(xs)
    ensures Distinct(ys)
  {
    DistinctAtMostOnce(xs);
    forall i, j | 0 <= i < j < |ys| ensures ys[i] != ys[j] {
      OncePerPosition(ys, i, j);
    }
  }

  /** A permutation has the same length and the same elements. */
  lemma PermutationElements<T>(ys: seq<T>, xs: seq<T>)
    requires IsPermutation(ys, xs)
    ensures |ys| == |xs|
    ensures forall x :: x in ys <==> x in xs
  {
    assert |multiset(ys)| == |multiset(xs)|;
    forall x ensures x in ys <==> x in xs {
      assert x in ys <==> x in multiset(ys);
    }
  }

  // ---------------------------------------------------------------------------
  // Reddit

  /** A comment to read aloud: who wrote it and what. */
  datatype Comment = Comment(user: Value, text: Value)

  /** The replies of one entry that have text, in order; a reply that is not a
      dict raises `AttributeError`, and adding the author of a reply with text
      to the set of users raises `TypeError` when it is a list or a dict. */
  function ReplyComments(replies: seq<Value>): (r: Result<seq<Comment>>)
    ensures r.Success? ==> forall i :: 0 <= i < |r.value| ==> Truthy(r.value[i].text) && Hashable(r.value[i].user)
    decreases |replies|
  {
    if |replies| == 0 then Success([])
    else
      var user :- DictGet(replies[0], "user_replying", Str("UnknownReply"));
      var text := GetOr(replies[0].entries, "reply", Str(""));
      if Truthy(text) && !Hashable(user) then Failure(UnhashableError(user))
      else
        var rest :- ReplyComments(replies[1..]);
        Success((if Truthy(text) then [Comment(user, text)] else []) + rest)
  }

  /** `reply.get("user_replying", "UnknownReply")` of a dict reply. */
  function ReplyUser(reply: Value): Value
    requires reply.Map?
  {
    GetOr(reply.entries, "user_replying", Str("UnknownReply"))
  }

  /** `reply.get("reply", "")` of a dict reply. */
  function ReplyText(reply: Value): Value
    requires reply.Map?
  {
    GetOr(reply.entries, "reply", Str(""))
  }

  /** The comments of two runs read one after the other, or the first error. */
  function ThenComments(ra: Result<seq<Comment>>, rb: Result<seq<Comment>>): Result<seq<Comment>> {
    if ra.Failure? then ra else if rb.Failure? then rb else Success(ra.value + rb.value)
  }

  lemma ThenCommentsAssoc(h: seq<Comment>, rt: Result<seq<Comment>>, rb: Result<seq<Comment>>)
    ensures ThenComments(Success(h), ThenComments(rt, rb)) == ThenComments(ThenComments(Success(h), rt), rb)
  {
    if rt.Success? && rb.Success? {
      assert h + (rt.value + rb.value) == (h + rt.value) + rb.value;
    }
  }

  /** What one dict reply contributes: nothing without text, else the comment
      by its author ("UnknownReply" when absent), provided the author can be
      hashed. */
  function OneReply(reply: Value): Result<seq<Comment>>
    requires reply.Map?
  {
    if !Truthy(ReplyText(reply)) then Success([])
    else if !Hashable(ReplyUser(reply)) then Failure(UnhashableError(ReplyUser(reply)))
    else Success([Comment(ReplyUser(reply), ReplyText(reply))])
  }

  /** One step of the reply loop: a dict reply's comment goes in front of the
      comments of the replies after it. */
  lemma ReplyCommentsCons(reply: Value, rest: seq<Value>)
    requires reply.Map?
    ensures ReplyComments([reply] + rest) == ThenComments(OneReply(reply), ReplyComments(rest))
  {
    var rs := [reply] + rest;
    assert rs[0] == reply && rs[1..] == rest;
    assert DictGet(rs[0], "user_replying", Str("UnknownReply")) == Success(ReplyUser(reply));
    var rr := ReplyComments(rest);
    if rr.Success? && !Truthy(ReplyText(reply)) {
      assert [] + rr.value == rr.value;
    }
  }

  /** A reply that is not a dict raises, whatever follows it. */
  lemma ReplyCommentsConsFail(reply: Value, rest: seq<Value>)
    requires !reply.Map?
    ensures ReplyComments([reply] + rest) == Failure(DictGet(reply, "user_replying", Str("UnknownReply")).error)
  {
    assert ([reply] + rest)[0] == reply;
  }

  /** A single dict reply gives its comment when it has text, else nothing. */
  lemma ReplyCommentsOne(reply: Value)
    requires reply.Map?
    ensures ReplyComments([reply]) == OneReply(reply)
  {
    ReplyCommentsCons(reply, []);
    assert [reply] + [] == [reply];
    if OneReply(reply).Success? {
      assert OneReply(reply).value + [] == OneReply(reply).value;
    }
  }

  /** One step of `ReplyCommentsSplit`. */
  lemma ReplyCommentsSplitStep(reply: Value, tail: seq<Value>, b: seq<Value>)
    requires ReplyComments(tail + b) == ThenComments(ReplyComments(tail), ReplyComments(b))
    ensures ReplyComments([reply] + tail + b) == ThenComments(ReplyComments([reply] + tail), ReplyComments(b))
  {
    assert [reply] + tail + b == [reply] + (tail + b);
    if !reply.Map? {
      ReplyCommentsConsFail(reply, tail);
      ReplyCommentsConsFail(reply, tail + b);
    } else {
      ReplyCommentsCons(reply, tail);
      ReplyCommentsCons(reply, tail + b);
      var one := OneReply(reply);
      if one.Success? {
        ThenCommentsAssoc(one.value, ReplyComments(tail), ReplyComments(b));
      }
    }
  }

  /** The replies of two runs are read in order: the comments of the first run,
      then those of the second; the first failure wins. */
  lemma {:induction false} ReplyCommentsSplit(a: seq<Value>, b: seq<Value>)
    ensures ReplyComments(a + b) == ThenComments(ReplyComments(a), ReplyComments(b))
    decreases |a|
  {
    if |a| == 0 {
      assert a + b == b;
      if ReplyComments(b).Success? {
        assert [] + ReplyComments(b).value == ReplyComments(b).value;
      }
    } else {
      ReplyCommentsSplit(a[1..], b);
      ReplyCommentsSplitStep(a[0], a[1..], b);
      assert [a[0]] + a[1..] == a;
    }
  }

  /** `entry.get("replies") or []`, iterated. */
  function EntryReplies(entry: Value): Result<seq<Value>>
    requires entry.Map?
  {
    Iterate(Or(GetOr(entry.entries, "replies", Null), List([])))
  }

  /** The entry's own comment, when it has text. */
  function HeadComment(entry: Value): seq<Comment>
    requires entry.Map?
  {
    var text := GetOr(entry.entries, "comment", Str(""));
    if Truthy(text) then [Comment(GetOr(entry.entries, "user_posted", Str("UnknownUser")), text)] else []
  }

  /** One entry of the thread: its own comment when it has text, then its
      replies that have text. `replies` that is absent or `None` counts as no
      replies. The author of a comment with text goes into the set of users
      first, so one that cannot be hashed raises before the replies are read. */
  function EntryComments(entry: Value): (r: Result<seq<Comment>>)
    ensures r.Success? ==> entry.Map?
    ensures r.Success? ==> forall i :: 0 <= i < |r.value| ==> Truthy(r.value[i].text) && Hashable(r.value[i].user)
    ensures r.Success? && Truthy(GetOr(entry.entries, "comment", Str(""))) ==>
              |r.value| > 0 && r.value[0] == Comment(GetOr(entry.entries, "user_posted", Str("UnknownUser")),
                                                     GetOr(entry.entries, "comment", Str("")))
    ensures entry.Map? && Truthy(GetOr(entry.entries, "comment", Str("")))
            && !Hashable(GetOr(entry.entries, "user_posted", Str("UnknownUser"))) ==>
              r == Failure(UnhashableError(GetOr(entry.entries, "user_posted", Str("UnknownUser"))))
    ensures r.Success? ==> && EntryReplies(entry).Success?
                           && ReplyComments(EntryReplies(entry).value).Success?
                           && r.value == HeadComment(entry) + ReplyComments(EntryReplies(entry).value).value
  {
    var user :- DictGet(entry, "user_posted", Str("UnknownUser"));
    var text := GetOr(entry.entries, "comment", Str(""));
    if Truthy(text) && !Hashable(user) then Failure(UnhashableError(user))
    else
      var replies := GetOr(entry.entries, "replies", Null);
      var items :- Iterate(Or(replies, List([])));
      var rest :- ReplyComments(items);
      Success((if Truthy(text) then [Comment(user, text)] else []) + rest)
  }

  /** The comments of each entry of `data` in turn, by `entry`; the first
      failing entry decides the error. */
  function FlattenWith(data: seq<Value>, entry: Value -> Result<seq<Comment>>): (r: Result<seq<Comment>>)
    ensures r.Success? <==> forall i :: 0 <= i < |data| ==> entry(data[i]).Success?
    decreases |data|
  {
    if |data| == 0 then Success([])
    else
      var first :- entry(data[0]);
      var rest :- FlattenWith(data[1..], entry);
      Success(first + rest)
  }

  /** The comment list `read_comments` builds from the thread `data`: it fails
      exactly when some entry does. */
  function FlattenComments(data: seq<Value>): (r: Result<seq<Comment>>)
    ensures r.Success? <==> forall i :: 0 <= i < |data| ==> EntryComments(data[i]).Success?
  {
    FlattenWith(data, EntryComments)
  }

  /** Flattening works entry by entry: a thread split in two flattens to the
      two halves' comments, one after the other. */
  lemma {:induction false} FlattenWithAppend(a: seq<Value>, b: seq<Value>, entry: Value -> Result<seq<Comment>>)
    requires FlattenWith(a, entry).Success? && FlattenWith(b, entry).Success?
    ensures FlattenWith(a + b, entry) == Success(FlattenWith(a, entry).value + FlattenWith(b, entry).value)
    decreases |a|
  {
    if |a| > 0 {
      assert (a + b)[1..] == a[1..] + b;
      assert (a + b)[0] == a[0];
      FlattenWithAppend(a[1..], b, entry);
      var first := entry(a[0]).value;
      var ra := FlattenWith(a[1..], entry).value;
      var rb := FlattenWith(b, entry).value;
      assert FlattenWith(a + b, entry) == Success(first + (ra + rb));
      assert first + (ra + rb) == (first + ra) + rb;
    } else {
      assert a + b == b;
      assert FlattenWith(a, entry) == Success([]);
      assert [] + FlattenWith(b, entry).value == FlattenWith(b, entry).value;
    }
  }

  /** The comments of a thread split in two are the two halves' comments, in
      order. */
  lemma FlattenAppend(a: seq<Value>, b: seq<Value>)
    requires FlattenComments(a).Success? && FlattenComments(b).Success?
    ensures FlattenComments(a + b) == Success(FlattenComments(a).value + FlattenComments(b).value)
  {
    FlattenWithAppend(a, b, EntryComments);
  }

  /** Every kept comment has text, and an author the set of users can hold. */
  lemma {:induction false} FlattenKeepsText(data: seq<Value>)
    requires FlattenComments(data).Success?
    ensures forall i :: 0 <= i < |FlattenComments(data).value| ==>
              Truthy(FlattenComments(data).value[i].text) && Hashable(FlattenComments(data).value[i].user)
    decreases |data|
  {
    if |data| > 0 {
      FlattenKeepsText(data[1..]);
      var first := EntryComments(data[0]).value;
      var rest := FlattenComments(data[1..]).value;
      assert FlattenComments(data).value == first + rest;
    }
  }

  /** The users `read_comments` collects: exactly the authors of the kept
      comments. */
  function Users(cs: seq<Comment>): (r: set<Value>)
    ensures forall i :: 0 <= i < |cs| ==> cs[i].user in r
    ensures forall u :: u in r ==> exists i :: 0 <= i < |cs| && cs[i].user == u
  {
    set i | 0 <= i < |cs| :: cs[i].user
  }

  /** `assign_voices(users, voices)` of the Reddit reader, with `users` in the
      order the set yields them and `shuffled` the list after
      `random.shuffle`: the i-th user gets `shuffled[i % len(shuffled)]`; with
      users but no voices the modulo raises `ZeroDivisionError`. */
  function RedditAssignVoices(users: seq<Value>, shuffled: seq<string>): (r: Result<map<Value, string>>)
    requires Distinct(users)
    ensures r.Failure? <==> |users| > 0 && |shuffled| == 0
    ensures r.Success? ==> r.value.Keys == set u | u in users
    ensures r.Success? ==> forall i :: 0 <= i < |users| ==> r.value[users[i]] == shuffled[i % |shuffled|]
  {
    if |users| == 0 then Success(map[])
    else if |shuffled| == 0 then Failure(ZeroDivisionError)
    else Success(map i | 0 <= i < |users| :: users[i] := shuffled[i % |shuffled|])
  }

  /** Every user gets one of the voices. */
  lemma RedditVoicesFromList(users: seq<Value>, voices: seq<string>, shuffled: seq<string>)
    requires Distinct(users) && IsPermutation(shuffled, voices)
    ensures RedditAssignVoices(users, shuffled).Success? ==>
              forall u :: u in RedditAssignVoices(users, shuffled).value ==>
                RedditAssignVoices(users, shuffled).value[u] in voices
  {
    PermutationElements(shuffled, voices);
    var r := RedditAssignVoices(users, shuffled);
    if r.Success? {
      forall u | u in r.value ensures r.value[u] in voices {
        var i :| 0 <= i < |users| && users[i] == u;
        assert r.value[u] == shuffled[i % |shuffled|];
      }
    }
  }

  /** With at least as many distinct voices as users, no two users share one. */
  lemma RedditDistinctVoices(users: seq<Value>, voices: seq<string>, shuffled: seq<string>)
    requires Distinct(users) && IsPermutation(shuffled, voices)
    requires Distinct(voices) && |users| <= |voices|
    ensures RedditAssignVoices(users, shuffled).Success?
    ensures forall i, j :: 0 <= i < j < |users| ==>
              RedditAssignVoices(users, shuffled).value[users[i]] != RedditAssignVoices(users, shuffled).value[users[j]]
  {
    PermutationDistinct(shuffled, voices);
    PermutationElements(shuffled, voices);
    var m := RedditAssignVoices(users, shuffled).value;
    forall i, j | 0 <= i < j < |users| ensures m[users[i]] != m[users[j]] {
      SmallMod(i, |shuffled|);
      SmallMod(j, |shuffled|);
    }
  }

  lemma SmallMod(i: nat, n: nat)
    requires i < n
    ensures i % n == i
  {
  }

  /** The voice each comment is read with, looked up by its user. */
  function VoiceOfEach(cs: seq<Comment>, m: map<Value, string>): (r: seq<string>)
    requires forall i :: 0 <= i < |cs| ==> cs[i].user in m
    ensures |r| == |cs|
    ensures forall i :: 0 <= i < |cs| ==> r[i] == m[cs[i].user]
  {
    seq(|cs|, i requires 0 <= i < |cs| => m[cs[i].user])
  }

  /** Comments by the same user get the same voice. */
  predicate OneVoicePerUser(cs: seq<Comment>, vs: seq<string>)
    requires |vs| == |cs|
  {
    forall i, j :: 0 <= i < |cs| && 0 <= j < |cs| && cs[i].user == cs[j].user ==> vs[i] == vs[j]
  }

  /** The elements of a set, each once, in whatever order iteration yields
      them. */
  method InSomeOrder<T>(s: set<T>) returns (xs: seq<T>)
    ensures Distinct(xs)
    ensures forall x :: x in xs <==> x in s
  {
    var left := s;
    xs := [];
    while left != {}
      invariant Distinct(xs)
      invariant forall x :: x in xs ==> x in s && x !in left
      invariant forall x :: x in s ==> x in xs || x in left
      invariant left <= s
      decreases |left|
    {
      var x :| x in left;
      xs := xs + [x];
      left := left - {x};
    }
  }

  /** The voice lookup of `read_comments` for the kept comments `cs`: the
      users get voices from a shuffle of `voices`, and each comment is read with
      its user's voice. It fails only when there are comments but no voices. */
  method CommentVoices(cs: seq<Comment>, voices: seq<string>) returns (r: Result<seq<string>>)
    ensures r.Failure? <==> |cs| > 0 && |voices| == 0
    ensures r.Success? ==> |r.value| == |cs|
    ensures r.Success? ==> forall i :: 0 <= i < |r.value| ==> r.value[i] in voices
    ensures r.Success? ==> OneVoicePerUser(cs, r.value)
  {
    var users := InSomeOrder(Users(cs));
    assert IsPermutation(voices, voices);
    var shuffled :| IsPermutation(shuffled, voices);
    PermutationElements(shuffled, voices);
    var m := RedditAssignVoices(users, shuffled);
    if |cs| > 0 {
      assert cs[0].user in Users(cs);
    }
    if |users| > 0 {
      assert users[0] in Users(cs);
    }
    if m.Failure? {
      return Failure(m.error);
    }
    RedditVoicesFromList(users, voices, shuffled);
    assert forall i :: 0 <= i < |cs| ==> cs[i].user in Users(cs);
    var vs := VoiceOfEach(cs, m.value);
    return Success(vs);
  }

  /** `read_comments` up to the speech: the voice each kept comment is read
      with. It fails when the thread is malformed, or when there are comments
      but no voices. Every comment's user is in the voice map, so the default
      `random.choice(voices)` is never the voice used. */
  method ReadComments(data: seq<Value>, voices: seq<string>) returns (r: Result<seq<string>>)
    ensures r.Failure? <==> FlattenComments(data).Failure?
                            || (|FlattenComments(data).value| > 0 && |voices| == 0)
    ensures r.Success? ==> |r.value| == |FlattenComments(data).value|
    ensures r.Success? ==> forall i :: 0 <= i < |r.value| ==> r.value[i] in voices
    ensures r.Success? ==> OneVoicePerUser(FlattenComments(data).value, r.value)
  {
    var flat := FlattenComments(data);
    if flat.Failure? {
      return Failure(flat.error);
    }
    r := CommentVoices(flat.value, voices);
  }

  // ---------------------------------------------------------------------------
  // Twitter

  /** `assign_voices(users, all_voices)` of the Twitter reader: each user pops
      the last voice of a shuffled copy of `all_voices`, and the copy is
      refilled and reshuffled only once it is empty. `all_voices` itself is
      never changed. With users but no voices, `pop` raises `IndexError`. */
  method TwitterAssignVoices(users: seq<string>, allVoices: seq<string>) returns (r: Result<map<string, string>>)
    requires Distinct(users)
    ensures r.Failure? <==> |users| > 0 && |allVoices| == 0
    ensures r.Success? ==> r.value.Keys == set u | u in users
    ensures r.Success? ==> forall u :: u in r.value ==> r.value[u] in allVoices
    ensures r.Success? && Distinct(allVoices) && |users| <= |allVoices| ==>
              forall i, j :: 0 <= i < j < |users| ==> r.value[users[i]] != r.value[users[j]]
  {
    assert IsPermutation(allVoices, allVoices);
    var first :| IsPermutation(first, allVoices);
    PermutationElements(first, allVoices);
    var available := first;
    var refilled := false;
    var m: map<string, string> := map[];
    for i := 0 to |users|
      invariant m.Keys == set u | u in users[..i]
      invariant forall u :: u in m ==> m[u] in allVoices
      invariant forall x :: x in available ==> x in allVoices
      invariant !refilled ==> |available| + i == |allVoices| && available == first[..|available|]
      invariant !refilled ==> forall k :: 0 <= k < i ==> m[users[k]] == first[|allVoices| - 1 - k]
      invariant |allVoices| == 0 && i > 0 ==> false
      invariant refilled ==> i > |allVoices|
    {
      if |available| == 0 {
        if |allVoices| == 0 {
          return Failure(IndexError("pop from empty list"));
        }
        var again :| IsPermutation(again, allVoices);
        PermutationElements(again, allVoices);
        available := again;
        refilled := true;
      }
      var voice := available[|available| - 1];
      available := available[..|available| - 1];
      assert users[..i + 1] == users[..i] + [users[i]];
      forall k | 0 <= k < i ensures users[k] != users[i] { }
      m := m[users[i] := voice];
    }
    assert users[..|users|] == users;
    if Distinct(allVoices) && |users| <= |allVoices| {
      PermutationDistinct(first, allVoices);
      assert !refilled;
    }
    return Success(m);
  }

  /** `main` of the Twitter reader after scraping: the voice each tweet is read
      with. Every tweet's user has a voice, so the lookup never fails once the
      assignment succeeded. */
  method TwitterVoices(tweets: seq<(string, string)>, allVoices: seq<string>) returns (r: Result<seq<string>>)
    ensures r.Failure? <==> |tweets| > 0 && |allVoices| == 0
    ensures r.Success? ==> |r.value| == |tweets| && forall i :: 0 <= i < |tweets| ==> r.value[i] in allVoices
    ensures r.Success? ==> forall i, j :: 0 <= i < |tweets| && 0 <= j < |tweets| && tweets[i].0 == tweets[j].0
                             ==> r.value[i] == r.value[j]
  {
    var users := InSomeOrder(set i | 0 <= i < |tweets| :: tweets[i].0);
    if |tweets| > 0 {
      assert tweets[0].0 in users;
    }
    if |users| > 0 {
      assert users[0] in users;
    }
    var m := TwitterAssignVoices(users, allVoices);
    if m.Failure? {
      return Failure(m.error);
    }
    var out: seq<string> := [];
    for i := 0 to |tweets|
      invariant |out| == i
      invariant forall k :: 0 <= k < i ==> tweets[k].0 in m.value && out[k] == m.value[tweets[k].0]
    {
      assert tweets[i].0 in users;
      out := out + [m.value[tweets[i].0]];
    }
    return Success(out);
  }
}
