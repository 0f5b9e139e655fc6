/** The configuration the core reads: the upstream is https://habrahabr.ru on port 443
    (scheme from the service name of port 443) and the proxy listens on localhost:9090. */
module Settings {
  import opened PyStr

  const TargetHost: string := "habrahabr.ru"
  const TargetLink: string := "https://habrahabr.ru"
  const LocalLink: string := "http://localhost:9090"

  /** Rewriting links can never produce a new occurrence of the upstream link: it cannot
      start inside the local link, nor run from the local link into the text after it,
      nor end inside it. */
  lemma LinksDoNotOverlap()
    ensures NoOverlap(TargetLink, LocalLink)
  {
    NoTargetInLocal();
    NoTargetAcrossLocal();
  }

  /** No suffix of the local link is a prefix of the upstream link or has it as a prefix. */
  lemma NoTargetInLocal()
    ensures forall j :: 0 <= j < |LocalLink| ==> !Compatible(LocalLink[j..], TargetLink)
  {
    forall j | 0 <= j < |LocalLink| ensures !Compatible(LocalLink[j..], TargetLink) {
      if j == 0 {
        assert LocalLink[4] != TargetLink[4];
      } else if j == 12 {
        assert LocalLink[13] != TargetLink[1];
      } else {
        assert LocalLink[j] != 'h';
      }
    }
  }

  /** No proper suffix of the upstream link is compatible with the local link. */
  lemma NoTargetAcrossLocal()
    ensures forall k :: 1 <= k < |TargetLink| ==> !Compatible(LocalLink, TargetLink[k..])
  {
    forall k | 1 <= k < |TargetLink| ensures !Compatible(LocalLink, TargetLink[k..]) {
      if k == 8 || k == 13 {
        assert LocalLink[1] != TargetLink[k + 1];
      } else {
        assert TargetLink[k] != 'h';
      }
    }
  }
}
