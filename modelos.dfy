/** Row records of the inventory database and the sequence queries that the
    SQL statements of the inventory service are built from.

    `Produto`, `Categoria`, `Venda` and `Usuario` are rows of the `produtos`,
    `categorias`, `vendas` and `usuarios` tables, with one field per column.
    They stand in for the value-holder classes of teste.py, whose fields
    differ (the class `Produto` has a `categoria` and no update date, the
    class `Venda` a `preco` and a `data`) and which the service never
    builds. */
module Modelos {

  datatype Option<+T> = None | Some(value: T)

  /** A timestamp (`CURRENT_TIMESTAMP`, the bounds of the sales report). The
      code only compares timestamps, so any total order does; seconds here. */
  type Data = int

  /** A `REAL` price. Prices are copied from a product row into a sale row and
      never computed with. */
  type Preco = real

  datatype Categoria = Categoria(id: int, nome: string)

  datatype Produto = Produto(id: int, nome: string, quantidade: int, preco: Preco,
                             categoriaId: Option<int>, dataAtualizacao: Data)

  datatype Venda = Venda(id: int, produtoId: int, quantidade: int, precoVenda: Preco,
                         dataVenda: Data)

  datatype Usuario = Usuario(id: int, usuario: string, senha: string, papel: string)

  /** The `usuario_logado` dictionary: who is logged in and with what role. */
  datatype Sessao = Sessao(usuario: string, papel: string)

  /** One row of the sales report: `v.data_venda, p.nome, v.quantidade, v.preco_venda`. */
  datatype LinhaRelatorio = LinhaRelatorio(dataVenda: Data, nomeProduto: string,
                                           quantidade: int, precoVenda: Preco)

  // ---------------------------------------------------------------------
  // Sequence queries
  // ---------------------------------------------------------------------

  /** No value occurs twice: what a UNIQUE or PRIMARY KEY column guarantees. */
  predicate Distintos<T(==)>(s: seq<T>) {
    forall i, j :: 0 <= i < j < |s| ==> s[i] != s[j]
  }

  /** The position of the first row whose key is `x`: what
      `SELECT ... WHERE col = ?` followed by `fetchone()` finds. */
  function Indice<T(==)>(s: seq<T>, x: T): (r: Option<nat>)
    ensures r.None? <==> x !in s
    ensures r.Some? ==> r.value < |s| && s[r.value] == x
    ensures r.Some? ==> forall j :: 0 <= j < r.value ==> s[j] != x
  {
    if |s| == 0 then None
    else if s[0] == x then Some(0)
    else match Indice(s[1..], x)
      case None => None
      case Some(k) => Some(k + 1)
  }

  /** On a key column without repeats, the first row with the key of row `i`
      is row `i` itself. */
  lemma IndiceDistintos<T>(s: seq<T>, i: nat)
    requires Distintos(s) && i < |s|
    ensures Indice(s, s[i]) == Some(i)
  {
  }

  /** How many rows carry the value `x`. */
  function Contar<T(==)>(s: seq<T>, x: T): (n: nat) {
    if |s| == 0 then 0 else (if s[0] == x then 1 else 0) + Contar(s[1..], x)
  }

  /** In a column without repeats a value occurs exactly once or not at all. */
  lemma {:induction false} ContarDistintos<T>(s: seq<T>, x: T)
    requires Distintos(s)
    ensures Contar(s, x) == if x in s then 1 else 0
  {
    if |s| > 0 {
      assert Distintos(s[1..]) by {
        forall i, j | 0 <= i < j < |s[1..]| ensures s[1..][i] != s[1..][j] {
          assert s[1..][i] == s[i + 1] && s[1..][j] == s[j + 1];
        }
      }
      ContarDistintos(s[1..], x);
      if s[0] == x {
        assert x !in s[1..] by {
          forall j | 0 <= j < |s[1..]| ensures s[1..][j] != x {
            assert s[1..][j] == s[j + 1];
          }
        }
      } else {
        assert x in s <==> x in s[1..] by {
          assert s == [s[0]] + s[1..];
        }
      }
    }
  }

  // ---------------------------------------------------------------------
  // Columns of the tables
  // ---------------------------------------------------------------------

  function IdsCategorias(cs: seq<Categoria>): seq<int> {
    seq(|cs|, i requires 0 <= i < |cs| => cs[i].id)
  }

  function NomesCategorias(cs: seq<Categoria>): seq<string> {
    seq(|cs|, i requires 0 <= i < |cs| => cs[i].nome)
  }

  function IdsProdutos(ps: seq<Produto>): seq<int> {
    seq(|ps|, i requires 0 <= i < |ps| => ps[i].id)
  }

  function NomesProdutos(ps: seq<Produto>): seq<string> {
    seq(|ps|, i requires 0 <= i < |ps| => ps[i].nome)
  }

  function IdsVendas(vs: seq<Venda>): seq<int> {
    seq(|vs|, i requires 0 <= i < |vs| => vs[i].id)
  }

  function IdsUsuarios(us: seq<Usuario>): seq<int> {
    seq(|us|, i requires 0 <= i < |us| => us[i].id)
  }

  function Logins(us: seq<Usuario>): seq<string> {
    seq(|us|, i requires 0 <= i < |us| => us[i].usuario)
  }
}
