/** The upload filter `allowed_file`: a file is accepted when its name has an
    extension and that extension, lower-cased, is one of the allowed ones. */
module Upload {
  import opened Text

  const AllowedExtensions: set<string> := {"docx"}

  /** `f.rsplit('.', 1)[1]`: the text after the last '.' of `f`. */
  function ExtensionOf(f: string): (e: string)
    requires '.' in f
    ensures |e| < |f| && f[|f| - |e| - 1] == '.' && e == f[|f| - |e|..]
    ensures '.' !in e
  {
    var n := |f| - 1;
    if f[n] == '.' then []
    else
      assert '.' in f[..n] by {
        var j :| 0 <= j < |f| && f[j] == '.';
        assert f[..n][j] == '.';
      }
      ExtensionOf(f[..n]) + [f[n]]
  }

  /** `allowed_file(filename)`. */
  predicate AllowedFile(f: string): (ok: bool)
    ensures ok ==> '.' in f && |ExtensionOf(f)| == 4 && f[|f| - 5] == '.'
  {
    '.' in f && Lower(ExtensionOf(f)) in AllowedExtensions
  }

  /** The extension is whatever follows the last dot: any dot with no dot
      after it determines `ExtensionOf`. */
  lemma ExtensionAfterLastDot(f: string, j: int)
    requires 0 <= j < |f| && f[j] == '.'
    requires forall k :: j < k < |f| ==> f[k] != '.'
    ensures ExtensionOf(f) == f[j + 1..]
  {
    var e := ExtensionOf(f);
    var d := |f| - |e| - 1;
    if d < j {
      assert false;
    } else if d > j {
      assert false;
    }
  }

  /** A name is accepted exactly when it ends in '.' followed by four
      characters that lower-case to "docx"; so "a.DOCX" and ".docx" pass
      while "docx" and "a.docx.txt" do not. */
  lemma AllowedFileIff(f: string)
    ensures AllowedFile(f) <==>
      |f| >= 5 && f[|f| - 5] == '.' && Lower(f[|f| - 4..]) == "docx"
  {
    if AllowedFile(f) {
      assert ExtensionOf(f) == f[|f| - 4..];
    }
    if |f| >= 5 && f[|f| - 5] == '.' && Lower(f[|f| - 4..]) == "docx" {
      DocxHasNoDot(f[|f| - 4..]);
      assert forall k :: |f| - 5 < k < |f| ==> f[k] == f[|f| - 4..][k - (|f| - 4)];
      ExtensionAfterLastDot(f, |f| - 5);
    }
  }

  lemma DocxHasNoDot(t: string)
    requires Lower(t) == "docx"
    ensures '.' !in t
  {
    forall k | 0 <= k < |t| ensures t[k] != '.' {
      assert LowerChar(t[k]) == "docx"[k];
    }
  }

  lemma AcceptedExamples()
    ensures AllowedFile("a.DOCX")
    ensures AllowedFile(".docx")
  {
    ExtensionAfterLastDot("a.DOCX", 1);
    var e := Lower("a.DOCX"[2..]);
    assert e[0] == 'd' && e[1] == 'o' && e[2] == 'c' && e[3] == 'x';
    assert e == "docx";
    ExtensionAfterLastDot(".docx", 0);
  }

  lemma RejectedExamples()
    ensures !AllowedFile("docx")
    ensures !AllowedFile("a.docx.txt")
  {
    ExtensionAfterLastDot("a.docx.txt", 6);
  }
}
