/**
 * `Puppet::Checksum`: a content string, the name of the digest algorithm
 * applied to it, and the digest itself, computed on first use and kept
 * until the algorithm changes.
 */
module Checksums {
  import opened Wrappers

  /** What `algorithm=` is given: a Ruby symbol or a string naming one. */
  datatype AlgorithmName = Symbol(name: string) | Text(name: string)

  datatype ChecksumError =
    | ContentMissing                   // `initialize` without content
    | UnsupportedAlgorithm(name: string) // `algorithm=` with a name the object does not answer to

  /** The algorithm used when `initialize` is not given one. */
  const DefaultAlgorithm := "md5"

  /** The text of `to_s`: `Checksum<{algorithm}digest>`. */
  function Render(algorithm: string, sum: string): (s: string)
    ensures |s| == |algorithm| + |sum| + 12
    ensures s[..10] == "Checksum<{" && s[|s| - 1] == '>'
    ensures s[10..10 + |algorithm|] == algorithm && s[10 + |algorithm|] == '}'
    ensures s[11 + |algorithm|..|s| - 1] == sum
  {
    "Checksum<{" + algorithm + "}" + sum + ">"
  }

  /** Index of the first `}` in `s`, if any. */
  function CloseBrace(s: string, from: nat): (i: Option<nat>)
    requires from <= |s|
    ensures i.Some? ==> from <= i.value < |s| && s[i.value] == '}' && '}' !in s[from..i.value]
    ensures i.None? ==> '}' !in s[from..]
    decreases |s| - from
  {
    if from == |s| then None
    else if s[from] == '}' then Some(from)
    else
      var r := CloseBrace(s, from + 1);
      assert s[from..] == [s[from]] + s[from + 1..];
      if r.Some? then
        assert s[from..r.value] == [s[from]] + s[from + 1..r.value];
        r
      else r
  }

  /** The first `}` at or after `from` is at `j` when `j` holds one and nothing before it does. */
  lemma {:induction false} CloseBraceFinds(s: string, from: nat, j: nat)
    requires from <= j < |s| && s[j] == '}'
    requires forall k :: from <= k < j ==> s[k] != '}'
    ensures CloseBrace(s, from) == Some(j)
    decreases j - from
  {
    if from < j {
      CloseBraceFinds(s, from + 1, j);
    }
  }

  /** In the text of `to_s`, the first `}` after the prefix closes the algorithm name. */
  lemma RenderBrace(algorithm: string, sum: string)
    requires '}' !in algorithm
    ensures CloseBrace(Render(algorithm, sum), 10) == Some(10 + |algorithm|)
  {
    var s := Render(algorithm, sum);
    forall k | 10 <= k < 10 + |algorithm|
      ensures s[k] != '}'
    {
      assert s[k] == s[10..10 + |algorithm|][k - 10] == algorithm[k - 10];
    }
    CloseBraceFinds(s, 10, 10 + |algorithm|);
  }

  /**
   * The rendering is unambiguous: as long as an algorithm name holds no
   * `}`, the text of `to_s` determines both the algorithm and the digest.
   */
  lemma RenderInjective(a1: string, d1: string, a2: string, d2: string)
    requires '}' !in a1 && '}' !in a2
    requires Render(a1, d1) == Render(a2, d2)
    ensures a1 == a2 && d1 == d2
  {
    RenderBrace(a1, d1);
    RenderBrace(a2, d2);
  }

  class Checksum {
    /** `content`: never nil once constructed. */
    const content: string
    /** `algorithm`: always stored as a symbol, here its name. */
    var algorithm: string
    /** `@checksum`: None until computed, and again after the algorithm changes. */
    var cached: Option<string>
    /** The method names the object answers to (`respond_to?`). */
    const supported: set<string>
    /** `send(algorithm, content)`: the digest functions of `Puppet::Util::Checksums`. */
    const digest: (string, string) -> string
    /** How many times a digest was computed. */
    ghost var digestCalls: nat

    /** The algorithm is one the object answers to, and a cached digest is the right one. */
    ghost predicate Valid()
      reads this
    {
      algorithm in supported && (cached.Some? ==> cached.value == digest(algorithm, content))
    }

    constructor Init(content: string, algorithm: string, supported: set<string>, digest: (string, string) -> string)
      requires algorithm in supported
      ensures Valid()
      ensures this.content == content && this.algorithm == algorithm && cached == None
      ensures this.supported == supported && this.digest == digest && digestCalls == 0
    {
      this.content := content;
      this.algorithm := algorithm;
      this.cached := None;
      this.supported := supported;
      this.digest := digest;
      this.digestCalls := 0;
    }

    /**
     * `Checksum.new(content, algorithm = "md5")`: missing content is refused
     * first, then an algorithm the object does not answer to.
     */
    static method Create(content: Option<string>, algorithm: Option<AlgorithmName>,
                         supported: set<string>, digest: (string, string) -> string)
      returns (r: Result<Checksum, ChecksumError>)
      ensures content.None? ==> r == Failure(ContentMissing)
      ensures content.Some? ==>
        var name := if algorithm.Some? then algorithm.value.name else DefaultAlgorithm;
        && (name !in supported ==> r == Failure(UnsupportedAlgorithm(name)))
        && (name in supported ==>
              && r.Success? && fresh(r.value) && r.value.Valid()
              && r.value.content == content.value && r.value.algorithm == name
              && r.value.cached == None && r.value.digestCalls == 0
              && r.value.supported == supported && r.value.digest == digest)
    {
      if content.None? {
        return Failure(ContentMissing);
      }
      var name := if algorithm.Some? then algorithm.value.name else DefaultAlgorithm;
      if name !in supported {
        return Failure(UnsupportedAlgorithm(name));
      }
      var c := new Checksum.Init(content.value, name, supported, digest);
      r := Success(c);
    }

    /**
     * `algorithm=`: an algorithm the object does not answer to is refused
     * and nothing changes; otherwise it is stored as a symbol and the cached
     * digest is dropped. The content never changes.
     */
    method SetAlgorithm(value: AlgorithmName) returns (error: Option<ChecksumError>)
      requires Valid()
      modifies this`algorithm, this`cached
      ensures Valid()
      ensures value.name !in supported ==>
        error == Some(UnsupportedAlgorithm(value.name)) && algorithm == old(algorithm) && cached == old(cached)
      ensures value.name in supported ==>
        error == None && algorithm == value.name && cached == None
    {
      if value.name !in supported {
        return Some(UnsupportedAlgorithm(value.name));
      }
      algorithm := value.name;
      cached := None;
      error := None;
    }

    /**
     * `checksum`: the digest of the content under the current algorithm,
     * computed only when nothing is cached.
     */
    method Checksum() returns (sum: string)
      requires Valid()
      modifies this`cached, this`digestCalls
      ensures Valid()
      ensures sum == digest(algorithm, content) && cached == Some(sum)
      ensures digestCalls == old(digestCalls) + (if old(cached).None? then 1 else 0)
    {
      if cached.None? {
        cached := Some(digest(algorithm, content));
        digestCalls := digestCalls + 1;
      }
      sum := cached.value;
    }

    /** `name`: the checksum itself, so a file terminus can key on it. */
    method Name() returns (n: string)
      requires Valid()
      modifies this`cached, this`digestCalls
      ensures Valid()
      ensures n == digest(algorithm, content) && cached == Some(n)
      ensures digestCalls == old(digestCalls) + (if old(cached).None? then 1 else 0)
    {
      n := Checksum();
    }

    /** `to_s` */
    method ToString() returns (s: string)
      requires Valid()
      modifies this`cached, this`digestCalls
      ensures Valid()
      ensures s == Render(algorithm, digest(algorithm, content))
      ensures digestCalls == old(digestCalls) + (if old(cached).None? then 1 else 0)
    {
      var sum := Checksum();
      s := Render(algorithm, sum);
    }
  }
}
