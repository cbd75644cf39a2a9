/** Key construction and matching: transport/bridge_transport.cpp, lines 67-86 and 284-316. */
module KeySpace {
  import opened Common

  // ----- Splitting on '/' -----

  predicate SlashFree(s: string) {
    '/' !in s
  }

  // The chunks between slashes, empty ones included
  function Chunks(s: string): (cs: seq<string>)
    ensures |cs| > 0
  {
    if s == "" then [""]
    else
      var before := Chunks(DropLast(s));
      if Last(s) == '/' then before + [""]
      else DropLast(before) + [Last(before) + [Last(s)]]
  }

  function NonEmpty(cs: seq<string>): seq<string> {
    if cs == [] then []
    else NonEmpty(DropLast(cs)) + (if Last(cs) == "" then [] else [Last(cs)])
  }

  // The nonempty segments of a ROS name
  function Segments(name: string): seq<string> {
    NonEmpty(Chunks(name))
  }

  // Every segment followed by a slash
  function Trailed(cs: seq<string>): string {
    if cs == [] then "" else Trailed(DropLast(cs)) + Last(cs) + "/"
  }

  function Join(cs: seq<string>): string {
    if cs == [] then "" else Trailed(DropLast(cs)) + Last(cs)
  }

  function Normalize(name: string): string {
    Join(Segments(name))
  }

  ghost predicate ProperSegments(cs: seq<string>) {
    forall i :: 0 <= i < |cs| ==> cs[i] != "" && SlashFree(cs[i])
  }

  lemma {:induction false} ChunksAreSlashFree(s: string)
    ensures forall i :: 0 <= i < |Chunks(s)| ==> SlashFree(Chunks(s)[i])
  {
    if s != "" {
      ChunksAreSlashFree(DropLast(s));
    }
  }

  lemma {:induction false} NonEmptyIsProper(cs: seq<string>)
    requires forall i :: 0 <= i < |cs| ==> SlashFree(cs[i])
    ensures ProperSegments(NonEmpty(cs))
  {
    if cs != [] {
      NonEmptyIsProper(DropLast(cs));
    }
  }

  lemma SegmentsAreProper(name: string)
    ensures ProperSegments(Segments(name))
  {
    ChunksAreSlashFree(name);
    NonEmptyIsProper(Chunks(name));
  }

  lemma ChunksSnoc(s: string, c: char)
    ensures Chunks(s + [c])
         == if c == '/' then Chunks(s) + [""] else DropLast(Chunks(s)) + [Last(Chunks(s)) + [c]]
  {
    LastOfAppend(s, [c]);
    assert s + DropLast([c]) == s;
  }

  // Splitting after a slash
  lemma {:induction false} ChunksAppend(a: string, b: string)
    ensures Chunks(a + "/" + b) == Chunks(a) + Chunks(b)
  {
    if b == "" {
      ChunksSnoc(a, '/');
      assert a + "/" + b == a + "/";
    } else {
      var init, c := DropLast(b), Last(b);
      ChunksAppend(a, init);
      LastOfAppend(Chunks(a), Chunks(init));
      ChunksSnoc(init, c);
      ChunksSnoc(a + "/" + init, c);
      Rejoin(b);
      Assoc(a + "/", init, [c]);
      if c == '/' {
        Assoc(Chunks(a), Chunks(init), [""]);
      } else {
        Assoc(Chunks(a), DropLast(Chunks(init)), [Last(Chunks(init)) + [c]]);
      }
    }
  }

  lemma {:induction false} ChunksOfSlashFree(s: string)
    requires SlashFree(s)
    ensures Chunks(s) == [s]
  {
    if s != "" {
      assert Last(s) in s;
      ChunksOfSlashFree(DropLast(s));
      assert s == DropLast(s) + [Last(s)];
    }
  }

  lemma ChunksHead(a: string, b: string)
    requires SlashFree(a)
    ensures Chunks(a + "/" + b) == [a] + Chunks(b)
  {
    ChunksAppend(a, b);
    ChunksOfSlashFree(a);
  }

  lemma {:induction false} NonEmptyOfProper(cs: seq<string>)
    requires ProperSegments(cs)
    ensures NonEmpty(cs) == cs
  {
    if cs != [] {
      NonEmptyOfProper(DropLast(cs));
      Rejoin(cs);
    }
  }

  lemma {:induction false} ChunksOfTrailed(cs: seq<string>, last: string)
    requires ProperSegments(cs) && SlashFree(last)
    ensures Chunks(Trailed(cs) + last) == cs + [last]
  {
    if cs == [] {
      ChunksOfSlashFree(last);
      assert Trailed(cs) + last == last;
    } else {
      ChunksOfTrailed(DropLast(cs), Last(cs));
      ChunksAppend(Trailed(DropLast(cs)) + Last(cs), last);
      ChunksOfSlashFree(last);
      assert Trailed(cs) + last == (Trailed(DropLast(cs)) + Last(cs)) + "/" + last;
      Rejoin(cs);
    }
  }

  // Joining proper segments and splitting again gives them back.
  lemma SegmentsOfJoin(cs: seq<string>)
    requires ProperSegments(cs)
    ensures Segments(Join(cs)) == cs
  {
    if cs == [] {
      assert Chunks("") == [""];
    } else {
      ChunksOfTrailed(DropLast(cs), Last(cs));
      Rejoin(cs);
      NonEmptyOfProper(cs);
    }
  }

  // A normalised name is its segments with one slash between any two, and no other slash.
  lemma NormalizedChunks(name: string)
    ensures if Segments(name) == [] then Normalize(name) == "" else Chunks(Normalize(name)) == Segments(name)
  {
    var cs := Segments(name);
    SegmentsAreProper(name);
    if cs != [] {
      ChunksOfTrailed(DropLast(cs), Last(cs));
      Rejoin(cs);
    }
  }

  // Normalisation is idempotent, and identifies exactly the names with equal segments.
  lemma NormalizeIdentifiesSegments(a: string, b: string)
    ensures Normalize(Normalize(a)) == Normalize(a)
    ensures Normalize(a) == Normalize(b) <==> Segments(a) == Segments(b)
  {
    SegmentsAreProper(a);
    SegmentsAreProper(b);
    SegmentsOfJoin(Segments(a));
    SegmentsOfJoin(Segments(b));
  }

  // What the loop has written after reading s: finished segments, each with its
  // slash, then the open one
  function Rendered(s: string): string {
    Trailed(NonEmpty(DropLast(Chunks(s)))) + Last(Chunks(s))
  }

  lemma TrailedAppend(cs: seq<string>, last: string)
    ensures Trailed(cs + [last]) == Trailed(cs) + last + "/"
    ensures Join(cs + [last]) == Trailed(cs) + last
  {
    assert DropLast(cs + [last]) == cs;
  }

  lemma RenderedStep(s: string, c: char)
    ensures Last(Chunks(s + [c])) == "" <==> c == '/'
    ensures Rendered(s + [c]) == if c != '/' then Rendered(s) + [c]
                                 else if Last(Chunks(s)) == "" then Rendered(s)
                                 else Rendered(s) + "/"
  {
    assert DropLast(s + [c]) == s;
    var cs := Chunks(s);
    if c == '/' {
      assert DropLast(cs + [""]) == cs;
      TrailedAppend(NonEmpty(DropLast(cs)), Last(cs));
      assert Trailed(NonEmpty(cs)) + "" == Trailed(NonEmpty(cs));
      assert NonEmpty(DropLast(cs)) + [] == NonEmpty(DropLast(cs));
      assert Last(cs) == "" ==> Rendered(s) == Trailed(NonEmpty(DropLast(cs)));
    } else {
      assert DropLast(DropLast(cs) + [Last(cs) + [c]]) == DropLast(cs);
    }
  }

  lemma RenderedNext(name: string, i: nat)
    requires i < |name|
    ensures Last(Chunks(name[..i + 1])) == "" <==> name[i] == '/'
    ensures Rendered(name[..i + 1]) == if name[i] != '/' then Rendered(name[..i]) + [name[i]]
                                       else if Last(Chunks(name[..i])) == "" then Rendered(name[..i])
                                       else Rendered(name[..i]) + "/"
  {
    RenderedStep(name[..i], name[i]);
    assert name[..i + 1] == name[..i] + [name[i]];
  }

  lemma RenderedDone(s: string)
    ensures Normalize(s) == "" || Last(Normalize(s)) != '/'
    ensures Rendered(s) == Normalize(s) || Rendered(s) == Normalize(s) + "/"
  {
    var done, last := NonEmpty(DropLast(Chunks(s))), Last(Chunks(s));
    SegmentsAreProper(s);
    JoinEndsProperly(Segments(s));
    TrailedAppend(done, last);
    if last == "" {
      assert Segments(s) == done;
      assert Rendered(s) == Trailed(done);
      if done != [] {
        TrailedAppend(DropLast(done), Last(done));
        assert done == DropLast(done) + [Last(done)];
      }
    }
  }

  lemma JoinEndsProperly(cs: seq<string>)
    requires ProperSegments(cs)
    ensures Join(cs) == "" || Last(Join(cs)) != '/'
  {
    if cs != [] {
      assert Last(Join(cs)) == Last(Last(cs));
      assert Last(Last(cs)) in Last(cs);
    }
  }

  method NormalizeRosName(name: string) returns (normalized: string)
    ensures normalized == Normalize(name)
  {
    normalized := "";
    var previousSlash := true;
    for i := 0 to |name|
      invariant previousSlash <==> Last(Chunks(name[..i])) == ""
      invariant normalized == Rendered(name[..i])
    {
      RenderedNext(name, i);
      if name[i] == '/' {
        if !previousSlash {
          normalized := normalized + "/";
        }
        previousSlash := true;
        continue;
      }
      normalized := normalized + [name[i]];
      previousSlash := false;
    }
    assert name[..|name|] == name;
    RenderedDone(name);
    normalized := StripSlashes(normalized, Normalize(name));
  }

  method StripSlashes(text: string, ghost kept: string) returns (stripped: string)
    requires text == kept || text == kept + "/"
    requires kept == "" || Last(kept) != '/'
    ensures stripped == kept
  {
    stripped := text;
    while stripped != "" && Last(stripped) == '/'
      decreases |stripped|
      invariant stripped == kept || stripped == kept + "/"
    {
      stripped := DropLast(stripped);
    }
  }

  // ----- Keys -----

  const TOPIC_PREFIX := "netbridge/v1/topic/"
  const SERVICE_PREFIX := "netbridge/v1/service/"
  const ALIVE_PREFIX := "netbridge/v1/alive/"

  function TopicFanoutKey(source: string, topic: string): string {
    TOPIC_PREFIX + (source + ("/fanout/" + Normalize(topic)))
  }

  function TopicDirectedKey(source: string, destination: string, topic: string): string {
    TOPIC_PREFIX + (source + ("/dst/" + (destination + ("/" + Normalize(topic)))))
  }

  function ServiceKey(server: string, service: string): string {
    SERVICE_PREFIX + (server + ("/" + Normalize(service)))
  }

  function AliveKey(host: string): string {
    ALIVE_PREFIX + host
  }

  // The text of the four kinds of key
  lemma KeyTexts(source: string, destination: string, name: string)
    ensures TopicFanoutKey(source, name) == "netbridge/v1/topic/" + (source + ("/fanout/" + Normalize(name)))
    ensures TopicDirectedKey(source, destination, name)
         == "netbridge/v1/topic/" + (source + ("/dst/" + (destination + ("/" + Normalize(name)))))
    ensures ServiceKey(source, name) == "netbridge/v1/service/" + (source + ("/" + Normalize(name)))
    ensures AliveKey(source) == "netbridge/v1/alive/" + source
  {
  }

  // A slash-free chunk, a slash, and the rest
  lemma ChunksHead2(a: string, b: string)
    requires SlashFree(a)
    ensures Chunks(a + ("/" + b)) == [a] + Chunks(b)
  {
    Assoc(a, "/", b);
    ChunksHead(a, b);
  }

  lemma RootText(tail: string)
    ensures "netbridge/v1/" + tail == "netbridge" + ("/" + ("v1" + ("/" + tail)))
  {
    assert "netbridge/v1/" == "netbridge" + ("/" + ("v1" + "/"));
    Assoc("netbridge", "/" + ("v1" + "/"), tail);
    Assoc("/", "v1" + "/", tail);
    Assoc("v1", "/", tail);
  }

  lemma RootChunks(kind: string, rest: string)
    requires SlashFree(kind)
    ensures Chunks("netbridge/v1/" + (kind + ("/" + rest))) == ["netbridge", "v1", kind] + Chunks(rest)
  {
    var tail := kind + ("/" + rest);
    RootText(tail);
    ChunksHead2(kind, rest);
    ChunksHead2("v1", tail);
    ChunksHead2("netbridge", "v1" + ("/" + tail));
  }

  lemma PrefixChunks(prefix: string, kind: string, rest: string)
    requires SlashFree(kind) && prefix == "netbridge/v1/" + (kind + "/")
    ensures Chunks(prefix + rest) == ["netbridge", "v1", kind] + Chunks(rest)
  {
    Assoc("netbridge/v1/", kind + "/", rest);
    Assoc(kind, "/", rest);
    RootChunks(kind, rest);
  }

  lemma TopicPrefixChunks(rest: string)
    ensures Chunks(TOPIC_PREFIX + rest) == ["netbridge", "v1", "topic"] + Chunks(rest)
  {
    PrefixChunks(TOPIC_PREFIX, "topic", rest);
  }

  lemma ServicePrefixChunks(rest: string)
    ensures Chunks(SERVICE_PREFIX + rest) == ["netbridge", "v1", "service"] + Chunks(rest)
  {
    PrefixChunks(SERVICE_PREFIX, "service", rest);
  }

  lemma AlivePrefixChunks(rest: string)
    ensures Chunks(ALIVE_PREFIX + rest) == ["netbridge", "v1", "alive"] + Chunks(rest)
  {
    PrefixChunks(ALIVE_PREFIX, "alive", rest);
  }

  // A slash-free chunk, then "/kind/", then the rest
  lemma ChunksHeadKind(a: string, kind: string, b: string)
    requires SlashFree(a) && SlashFree(kind)
    ensures Chunks(a + (("/" + kind + "/") + b)) == [a, kind] + Chunks(b)
  {
    ChunksHead2(kind, b);
    ChunksHead2(a, kind + ("/" + b));
    Assoc("/" + kind, "/", b);
    Assoc("/", kind, "/" + b);
  }

  // ----- The four kinds of key -----

  datatype Key =
    | Fanout(source: string, topic: string)
    | Directed(source: string, destination: string, topic: string)
    | Service(server: string, service: string)
    | Alive(host: string)

  function KeyText(k: Key): string {
    match k
    case Fanout(s, t) => TopicFanoutKey(s, t)
    case Directed(s, d, t) => TopicDirectedKey(s, d, t)
    case Service(s, t) => ServiceKey(s, t)
    case Alive(h) => AliveKey(h)
  }

  predicate SlashFreeHosts(k: Key) {
    match k
    case Fanout(s, _) => SlashFree(s)
    case Directed(s, d, _) => SlashFree(s) && SlashFree(d)
    case Service(s, _) => SlashFree(s)
    case Alive(h) => SlashFree(h)
  }

  // The key up to normalisation of the ROS name in it
  function Canonical(k: Key): Key {
    match k
    case Fanout(s, t) => Fanout(s, Normalize(t))
    case Directed(s, d, t) => Directed(s, d, Normalize(t))
    case Service(s, t) => Service(s, Normalize(t))
    case Alive(h) => Alive(h)
  }

  function KindChunk(k: Key): string {
    match k
    case Fanout(_, _) => "topic"
    case Directed(_, _, _) => "topic"
    case Service(_, _) => "service"
    case Alive(_) => "alive"
  }

  function RestChunks(k: Key): seq<string> {
    match k
    case Fanout(s, t) => [s, "fanout"] + Chunks(Normalize(t))
    case Directed(s, d, t) => [s, "dst"] + ([d] + Chunks(Normalize(t)))
    case Service(s, t) => [s] + Chunks(Normalize(t))
    case Alive(h) => [h]
  }

  function KeyChunks(k: Key): seq<string> {
    ["netbridge", "v1", KindChunk(k)] + RestChunks(k)
  }

  lemma KeyTextChunks(k: Key)
    requires SlashFreeHosts(k)
    ensures Chunks(KeyText(k)) == KeyChunks(k)
  {
    match k
    case Fanout(s, t) =>
      assert "/fanout/" == "/" + "fanout" + "/";
      ChunksHeadKind(s, "fanout", Normalize(t));
      TopicPrefixChunks(s + ("/fanout/" + Normalize(t)));
    case Directed(s, d, t) =>
      assert "/dst/" == "/" + "dst" + "/";
      ChunksHead2(d, Normalize(t));
      ChunksHeadKind(s, "dst", d + ("/" + Normalize(t)));
      TopicPrefixChunks(s + ("/dst/" + (d + ("/" + Normalize(t)))));
    case Service(s, t) =>
      ChunksHead2(s, Normalize(t));
      ServicePrefixChunks(s + ("/" + Normalize(t)));
    case Alive(h) =>
      ChunksOfSlashFree(h);
      AlivePrefixChunks(h);
  }

  lemma SameChunks(a: string, b: string)
    requires Chunks(Normalize(a)) == Chunks(Normalize(b))
    ensures Normalize(a) == Normalize(b)
  {
    NormalizeIdentifiesSegments(a, b);
    SegmentsAreProper(a);
    SegmentsAreProper(b);
    SegmentsOfJoin(Segments(a));
    SegmentsOfJoin(Segments(b));
  }

  // For slash-free hosts the four key builders are injective up to normalisation of the
  // name, and keys of different kinds are never equal.
  lemma KeysAreInjective(a: Key, b: Key)
    requires SlashFreeHosts(a) && SlashFreeHosts(b)
    ensures KeyText(a) == KeyText(b) <==> Canonical(a) == Canonical(b)
  {
    if KeyText(a) == KeyText(b) {
      KeyTextChunks(a);
      KeyTextChunks(b);
      SameKeyChunks(a, b);
    }
  }

  lemma SameKeyChunks(a: Key, b: Key)
    requires KeyChunks(a) == KeyChunks(b)
    ensures Canonical(a) == Canonical(b)
  {
    SplitEqual(["netbridge", "v1", KindChunk(a)], RestChunks(a),
               ["netbridge", "v1", KindChunk(b)], RestChunks(b));
    assert ["netbridge", "v1", KindChunk(a)][2] == ["netbridge", "v1", KindChunk(b)][2];
    match a
    case Fanout(_, _) => SameTopicKeys(a, b);
    case Directed(_, _, _) => SameTopicKeys(a, b);
    case Service(s, t) =>
      SplitEqual([s], Chunks(Normalize(t)), [b.server], Chunks(Normalize(b.service)));
      SameChunks(t, b.service);
    case Alive(h) =>
      assert RestChunks(a)[0] == RestChunks(b)[0];
  }

  lemma SameTopicKeys(a: Key, b: Key)
    requires (a.Fanout? || a.Directed?) && (b.Fanout? || b.Directed?)
    requires RestChunks(a) == RestChunks(b)
    ensures Canonical(a) == Canonical(b)
  {
    var kindA, restA := if a.Fanout? then "fanout" else "dst",
                        if a.Fanout? then Chunks(Normalize(a.topic)) else [a.destination] + Chunks(Normalize(a.topic));
    var kindB, restB := if b.Fanout? then "fanout" else "dst",
                        if b.Fanout? then Chunks(Normalize(b.topic)) else [b.destination] + Chunks(Normalize(b.topic));
    SplitEqual([a.source, kindA], restA, [b.source, kindB], restB);
    assert [a.source, kindA][0] == [b.source, kindB][0];
    assert [a.source, kindA][1] == [b.source, kindB][1];
    if a.Directed? {
      SplitEqual([a.destination], Chunks(Normalize(a.topic)), [b.destination], Chunks(Normalize(b.topic)));
    }
    SameChunks(a.topic, b.topic);
  }

  function ParseAliveKey(key: string): Option<string> {
    if !(ALIVE_PREFIX <= key) then None
    else
      var parsed := key[|ALIVE_PREFIX|..];
      if parsed == "" || '/' in parsed then None else Some(parsed)
  }

  // ParseAliveKey answers exactly the alive keys of nonempty slash-free names.
  lemma ParseAliveKeyInverts(key: string, host: string)
    ensures ParseAliveKey(key) == Some(host)
       <==> (key == AliveKey(host) && host != "" && SlashFree(host))
  {
    assert AliveKey(host)[|ALIVE_PREFIX|..] == host;
    assert ALIVE_PREFIX <= AliveKey(host);
  }

  // ----- Key expressions -----

  predicate StarFree(s: string) {
    '*' !in s
  }

  // A key expression chunk "*" stands for any one chunk.
  predicate ChunkMatches(expr: string, chunk: string) {
    expr == "*" || expr == chunk
  }

  ghost predicate ChunksMatch(es: seq<string>, ks: seq<string>) {
    |es| == |ks| && forall i :: 0 <= i < |es| ==> ChunkMatches(es[i], ks[i])
  }

  ghost predicate Matches(expr: string, key: string) {
    ChunksMatch(Chunks(expr), Chunks(key))
  }

  predicate AllStarFree(cs: seq<string>) {
    forall i :: 0 <= i < |cs| ==> StarFree(cs[i])
  }

  lemma {:induction false} StarFreeChunks(s: string)
    requires StarFree(s)
    ensures AllStarFree(Chunks(s))
  {
    if s != "" {
      assert Last(s) in s;
      StarFreeChunks(DropLast(s));
    }
  }

  lemma {:induction false} StarFreeMatch(es: seq<string>, ks: seq<string>)
    requires AllStarFree(es)
    ensures ChunksMatch(es, ks) <==> es == ks
  {
    forall i | 0 <= i < |es| && i < |ks|
      ensures ChunkMatches(es[i], ks[i]) <==> es[i] == ks[i]
    {
      assert '*' in "*";
    }
  }

  lemma {:induction false} NonEmptyStarFree(cs: seq<string>)
    requires AllStarFree(cs)
    ensures AllStarFree(NonEmpty(cs))
  {
    if cs != [] {
      NonEmptyStarFree(DropLast(cs));
    }
  }

  lemma NormalizedStarFree(name: string)
    requires StarFree(name)
    ensures AllStarFree(Chunks(Normalize(name)))
  {
    var cs := Segments(name);
    SegmentsAreProper(name);
    StarFreeChunks(name);
    NonEmptyStarFree(Chunks(name));
    if cs == [] {
      assert Chunks("") == [""];
    } else {
      ChunksOfTrailed(DropLast(cs), Last(cs));
    }
  }

  predicate StarFreeKey(k: Key) {
    match k
    case Fanout(s, t) => StarFree(s) && StarFree(t)
    case Directed(s, d, t) => StarFree(s) && StarFree(d) && StarFree(t)
    case Service(s, t) => StarFree(s) && StarFree(t)
    case Alive(h) => StarFree(h)
  }

  lemma KeyChunksStarFree(k: Key)
    requires StarFreeKey(k)
    ensures AllStarFree(KeyChunks(k))
  {
    RestChunksStarFree(k);
    KindStarFree(k);
    AllStarFreeAppend(["netbridge", "v1", KindChunk(k)], RestChunks(k));
  }

  lemma KindStarFree(k: Key)
    ensures AllStarFree(["netbridge", "v1", KindChunk(k)])
  {
    assert StarFree("netbridge");
    assert StarFree("v1");
    assert StarFree(KindChunk(k));
  }

  lemma AllStarFreeAppend(a: seq<string>, b: seq<string>)
    requires AllStarFree(a) && AllStarFree(b)
    ensures AllStarFree(a + b)
  {
  }

  lemma RestChunksStarFree(k: Key)
    requires StarFreeKey(k)
    ensures AllStarFree(RestChunks(k))
  {
    match k
    case Fanout(s, t) =>
      NormalizedStarFree(t);
      PairStarFree(s, "fanout");
      AllStarFreeAppend([s, "fanout"], Chunks(Normalize(t)));
    case Directed(s, d, t) =>
      NormalizedStarFree(t);
      PairStarFree(s, "dst");
      AllStarFreeAppend([d], Chunks(Normalize(t)));
      AllStarFreeAppend([s, "dst"], [d] + Chunks(Normalize(t)));
    case Service(s, t) =>
      NormalizedStarFree(t);
      AllStarFreeAppend([s], Chunks(Normalize(t)));
    case Alive(_) =>
  }

  lemma PairStarFree(a: string, b: string)
    requires StarFree(a) && StarFree(b)
    ensures AllStarFree([a, b])
  {
  }

  // A subscription without wildcards hears exactly the equal keys.
  lemma PlainSubscription(e: Key, k: Key)
    requires SlashFreeHosts(e) && SlashFreeHosts(k) && StarFreeKey(e)
    ensures Matches(KeyText(e), KeyText(k)) <==> Canonical(e) == Canonical(k)
  {
    KeyTextChunks(e);
    KeyTextChunks(k);
    KeyChunksStarFree(e);
    StarFreeMatch(KeyChunks(e), KeyChunks(k));
    KeysAreInjective(e, k);
    if KeyChunks(e) == KeyChunks(k) {
      SameKeyChunks(e, k);
    }
  }

  // The "*"-source directed subscription hears exactly the directed keys with its
  // destination and its topic up to normalisation, whatever their source.
  lemma AnySourceSubscription(destination: string, topic: string, k: Key)
    requires SlashFree(destination) && StarFree(destination) && StarFree(topic)
    requires SlashFreeHosts(k)
    ensures Matches(TopicDirectedKey("*", destination, topic), KeyText(k))
       <==> (k.Directed? && k.destination == destination && Normalize(k.topic) == Normalize(topic))
  {
    KeyTextChunks(Directed("*", destination, topic));
    KeyTextChunks(k);
    AnySourceChunks(destination, topic, k);
  }

  lemma AnySourceChunks(destination: string, topic: string, k: Key)
    requires StarFree(destination) && StarFree(topic)
    ensures ChunksMatch(KeyChunks(Directed("*", destination, topic)), KeyChunks(k))
       <==> (k.Directed? && k.destination == destination && Normalize(k.topic) == Normalize(topic))
  {
    var x := RestChunks(k)[0];
    var named := Directed(x, destination, topic);
    ReplaceSource("*", x, destination, topic, k);
    DirectedStars(destination, topic);
    WildcardAt(KeyChunks(Directed("*", destination, topic)), KeyChunks(k), 3);
    if KeyChunks(named) == KeyChunks(k) {
      SameKeyChunks(named, k);
    }
  }

  lemma ReplaceSource(s: string, x: string, d: string, t: string, k: Key)
    ensures |KeyChunks(Directed(s, d, t))| > 3 && KeyChunks(Directed(s, d, t))[3] == s
    ensures KeyChunks(Directed(s, d, t))[3 := x] == KeyChunks(Directed(x, d, t))
    ensures |KeyChunks(k)| > 3 && KeyChunks(k)[3] == RestChunks(k)[0]
  {
    ReplaceFourth("netbridge", "v1", "topic", s, x, "dst", [d] + Chunks(Normalize(t)));
  }

  lemma ReplaceFourth(a: string, b: string, c: string, s: string, x: string, e: string, rest: seq<string>)
    ensures ([a, b, c] + ([s, e] + rest))[3] == s
    ensures ([a, b, c] + ([s, e] + rest))[3 := x] == [a, b, c] + ([x, e] + rest)
  {
  }

  lemma DirectedStars(d: string, t: string)
    requires StarFree(d) && StarFree(t)
    ensures forall i :: 0 <= i < |KeyChunks(Directed("*", d, t))| && i != 3
              ==> StarFree(KeyChunks(Directed("*", d, t))[i])
  {
    KeyChunksStarFree(Directed("", d, t));
    ReplaceSource("", "*", d, t, Alive(""));
  }

  // One wildcard chunk among star-free ones
  lemma WildcardAt(es: seq<string>, ks: seq<string>, at: nat)
    requires at < |es| && at < |ks| && es[at] == "*"
    requires forall i :: 0 <= i < |es| && i != at ==> StarFree(es[i])
    ensures ChunksMatch(es, ks) <==> es[at := ks[at]] == ks
  {
    assert '*' in "*";
    var named := es[at := ks[at]];
    if ChunksMatch(es, ks) {
      forall i | 0 <= i < |es|
        ensures named[i] == ks[i]
      {
        assert ChunkMatches(es[i], ks[i]);
      }
    }
    if named == ks {
      forall i | 0 <= i < |es|
        ensures ChunkMatches(es[i], ks[i])
      {
        assert named[i] == ks[i];
      }
    }
  }
}
