/** Storage keys of bitstreams: how they are built and why no two files share one. */
module StorageKeys {
  import opened Text

  const INSTITUTION_KEY_PREFIX := "institutions"

  function KeyIn(area: string, institution: string, item: nat, filename: string): string {
    INSTITUTION_KEY_PREFIX + ['/'] + (institution + ['/'] + (area + ['/'] + (Decimal(item) + ['/'] + filename)))
  }

  function PermanentKey(institution: string, item: nat, filename: string): string {
    KeyIn("storage", institution, item, filename)
  }

  function StagingKey(institution: string, item: nat, filename: string): string {
    KeyIn("uploads", institution, item, filename)
  }

  lemma KeyPieces(area: string, institution: string, item: nat, filename: string)
    requires '/' !in area && '/' !in institution
    ensures Pieces(KeyIn(area, institution, item, filename), '/')
            == [INSTITUTION_KEY_PREFIX, institution, area, Decimal(item)] + Pieces(filename, '/')
  {
    var d := Decimal(item);
    var k1 := d + ['/'] + filename;
    var k2 := area + ['/'] + k1;
    var k3 := institution + ['/'] + k2;
    PiecesCut(d, filename, '/');
    PiecesCut(area, k1, '/');
    PiecesCut(institution, k2, '/');
    PiecesCut(INSTITUTION_KEY_PREFIX, k3, '/');
    var f := Pieces(filename, '/');
    assert [INSTITUTION_KEY_PREFIX] + ([institution] + ([area] + ([d] + f)))
        == [INSTITUTION_KEY_PREFIX, institution, area, d] + f;
  }

  /** A key is the five parts joined by slashes. */
  lemma KeyIsJoined(area: string, institution: string, item: nat, filename: string)
    ensures KeyIn(area, institution, item, filename)
            == Join([INSTITUTION_KEY_PREFIX, institution, area, Decimal(item), filename], '/')
  {
    var d := Decimal(item);
    assert [INSTITUTION_KEY_PREFIX, institution, area, d, filename][1..] == [institution, area, d, filename];
    assert [institution, area, d, filename][1..] == [area, d, filename];
    assert [area, d, filename][1..] == [d, filename];
    assert [d, filename][1..] == [filename];
    assert Join([d, filename], '/') == d + ['/'] + filename;
    assert Join([area, d, filename], '/') == area + ['/'] + (d + ['/'] + filename);
    assert Join([institution, area, d, filename], '/') == institution + ['/'] + (area + ['/'] + (d + ['/'] + filename));
  }

  /** The keys of the two areas. */
  lemma KeysAre(institution: string, item: nat, filename: string)
    ensures PermanentKey(institution, item, filename)
            == Join(["institutions", institution, "storage", Decimal(item), filename], '/')
    ensures StagingKey(institution, item, filename)
            == Join(["institutions", institution, "uploads", Decimal(item), filename], '/')
  {
    KeyIsJoined("storage", institution, item, filename);
    KeyIsJoined("uploads", institution, item, filename);
  }

  /** Equal keys come from the same area, institution, item and filename, slashes in the filename included. */
  lemma KeyInjective(a1: string, i1: string, n1: nat, f1: string, a2: string, i2: string, n2: nat, f2: string)
    requires '/' !in a1 && '/' !in i1 && '/' !in a2 && '/' !in i2
    requires KeyIn(a1, i1, n1, f1) == KeyIn(a2, i2, n2, f2)
    ensures a1 == a2 && i1 == i2 && n1 == n2 && f1 == f2
  {
    KeyPieces(a1, i1, n1, f1);
    KeyPieces(a2, i2, n2, f2);
    var p, q := [INSTITUTION_KEY_PREFIX, i1, a1, Decimal(n1)], [INSTITUTION_KEY_PREFIX, i2, a2, Decimal(n2)];
    var ps, qs := p + Pieces(f1, '/'), q + Pieces(f2, '/');
    assert ps == qs;
    assert ps[1] == i1 && qs[1] == i2 && ps[2] == a1 && qs[2] == a2 && ps[3] == Decimal(n1) && qs[3] == Decimal(n2);
    assert ps[4..] == Pieces(f1, '/') && qs[4..] == Pieces(f2, '/');
    DecimalInjective(n1, n2);
    JoinPieces(f1, '/');
    JoinPieces(f2, '/');
  }
}
