/**
 * How the ZED client splits a configured topic into the namespace and the
 * name it hands to the ROS2 name validator.
 */
module ZedRos2 {

  /** Whether a topic is absolute, i.e. begins with '/'. */
  predicate StartsWithSlash(s: string) {
    |s| > 0 && s[0] == '/'
  }

  /** `n` slashes. */
  function Slashes(n: nat): string {
    seq(n, _ => '/')
  }

  /** `str::trim_start_matches('/')`: the suffix left after every leading
    * '/' is removed. */
  function TrimLeadingSlashes(s: string): (r: string)
    ensures |r| <= |s| && r == s[|s| - |r|..]
    ensures forall i :: 0 <= i < |s| - |r| ==> s[i] == '/'
    ensures !StartsWithSlash(r)
    decreases |s|
  {
    if StartsWithSlash(s) then TrimLeadingSlashes(s[1..]) else s
  }

  /** `topic_name` up to its call of `Name::new`: the (namespace, name)
    * pair it would validate. An absolute topic is put in the root namespace
    * "/" with all its leading slashes removed; any other topic keeps the
    * configured namespace and is passed through unchanged. */
  function TopicName(namespace: string, topic: string): (r: (string, string))
    ensures StartsWithSlash(topic) ==>
      && r.0 == "/"
      && !StartsWithSlash(r.1)
      && |r.1| <= |topic| && r.1 == topic[|topic| - |r.1|..]
      && forall i :: 0 <= i < |topic| - |r.1| ==> topic[i] == '/'
    ensures !StartsWithSlash(topic) ==> r == (namespace, topic)
  {
    if StartsWithSlash(topic) then ("/", TrimLeadingSlashes(topic)) else (namespace, topic)
  }

  /** Any number of slashes, none included, in front of a relative name
    * trims to that name. */
  lemma {:induction false} TrimSlashesRoundTrip(n: nat, name: string)
    requires !StartsWithSlash(name)
    ensures TrimLeadingSlashes(Slashes(n) + name) == name
  {
    if n > 0 {
      assert (Slashes(n) + name)[1..] == Slashes(n - 1) + name;
      TrimSlashesRoundTrip(n - 1, name);
    } else {
      assert Slashes(n) + name == name;
    }
  }

  /** An absolute topic `"/" * n + name` names `name` in the root namespace,
    * however many slashes it starts with. */
  lemma AbsoluteTopicRoundTrip(namespace: string, n: nat, name: string)
    requires n >= 1 && !StartsWithSlash(name)
    ensures TopicName(namespace, Slashes(n) + name) == ("/", name)
  {
    assert (Slashes(n) + name)[0] == '/';
    TrimSlashesRoundTrip(n, name);
  }

  /** One more leading slash does not change what is trimmed. */
  lemma TrimIgnoresExtraSlash(x: string)
    ensures TrimLeadingSlashes("/" + x) == TrimLeadingSlashes(x)
  {
    assert ("/" + x)[1..] == x;
  }

  /** "/x" and "///x" name the same thing, for any x. */
  lemma OneOrThreeSlashesAgree(namespace: string, x: string)
    ensures TopicName(namespace, "/" + x) == TopicName(namespace, "///" + x)
  {
    assert "///" + x == "/" + ("/" + ("/" + x));
    TrimIgnoresExtraSlash("/" + ("/" + x));
    TrimIgnoresExtraSlash("/" + x);
  }

  /** Splitting is idempotent: re-splitting the absolute form of a split
    * topic gives the same pair. */
  lemma TopicNameIdempotent(namespace: string, topic: string)
    requires StartsWithSlash(topic)
    ensures TopicName(namespace, "/" + TopicName(namespace, topic).1) == TopicName(namespace, topic)
  {
    AbsoluteTopicRoundTrip(namespace, 1, TopicName(namespace, topic).1);
    assert Slashes(1) == "/";
  }
}
