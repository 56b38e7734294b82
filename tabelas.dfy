/** The contents of the database file `estoque.db` as one value, the
    constraints its schema imposes (teste.py `criar_tabelas`), and each unit of
    work of the inventory service as a function from the contents before to the
    contents after. The classes in banco.dfy and estoque.dfy are proved to
    change their tables exactly as these functions say. */
module Tabelas {
  import opened Modelos

  /** The four tables and SQLite's `sqlite_sequence` counters. With
      AUTOINCREMENT a new row gets the largest id the table ever handed out,
      plus one; the counters start at 0. */
  datatype Arquivo = Arquivo(
    categorias: seq<Categoria>,
    produtos: seq<Produto>,
    vendas: seq<Venda>,
    usuarios: seq<Usuario>,
    seqCategorias: nat,
    seqProdutos: nat,
    seqVendas: nat,
    seqUsuarios: nat)

  /** What a unit of work reports (`True`/`False`) and the contents it leaves. */
  datatype Passo = Passo(ok: bool, depois: Arquivo)

  /** The bootstrap account of `criar_usuario_admin`. */
  const ADMIN_USUARIO := "admin"
  const ADMIN_SENHA := "admin123"
  const ADMIN_PAPEL := "admin"

  // ---------------------------------------------------------------------
  // Schema constraints
  // ---------------------------------------------------------------------

  /** An `INTEGER PRIMARY KEY AUTOINCREMENT` column: no id twice, and every id
      between 1 and the largest one handed out. */
  predicate IdsAutomaticos(ids: seq<int>, ultimo: nat) {
    Distintos(ids) && forall i :: 0 <= i < |ids| ==> 1 <= ids[i] <= ultimo
  }

  /** The primary keys and the UNIQUE columns `categorias.nome`,
      `produtos.nome` and `usuarios.usuario`. NOT NULL is carried by the
      types of the row fields; foreign keys are not enforced by SQLite unless
      asked to, and the code never asks. */
  predicate Integro(a: Arquivo) {
    IdsAutomaticos(IdsCategorias(a.categorias), a.seqCategorias)
    && Distintos(NomesCategorias(a.categorias))
    && IdsAutomaticos(IdsProdutos(a.produtos), a.seqProdutos)
    && Distintos(NomesProdutos(a.produtos))
    && IdsAutomaticos(IdsVendas(a.vendas), a.seqVendas)
    && IdsAutomaticos(IdsUsuarios(a.usuarios), a.seqUsuarios)
    && Distintos(Logins(a.usuarios))
  }

  /** A database file that did not exist yet: `CREATE TABLE IF NOT EXISTS`
      leaves four empty tables. */
  function ArquivoNovo(): (a: Arquivo)
    ensures Integro(a)
    ensures a.categorias == [] && a.produtos == [] && a.vendas == [] && a.usuarios == []
  {
    Arquivo([], [], [], [], 0, 0, 0, 0)
  }

  /** Appending a row with the next AUTOINCREMENT id keeps the key column valid. */
  lemma NovoId(ids: seq<int>, ultimo: nat)
    requires IdsAutomaticos(ids, ultimo)
    ensures IdsAutomaticos(ids + [ultimo + 1], ultimo + 1)
  {
  }

  /** Appending a value that is not in the column keeps the column free of repeats. */
  lemma NovoValor<T>(s: seq<T>, x: T)
    requires Distintos(s) && x !in s
    ensures Distintos(s + [x])
  {
  }

  // ---------------------------------------------------------------------
  // adicionar_categoria
  // ---------------------------------------------------------------------

  /** `INSERT INTO categorias (nome) VALUES (?)`: a NULL or an existing name is
      an IntegrityError, turned into `False` with nothing inserted. */
  function InserirCategoria(a: Arquivo, nome: Option<string>): (r: Passo)
    ensures r.depois.produtos == a.produtos && r.depois.vendas == a.vendas
    ensures r.depois.usuarios == a.usuarios
  {
    if nome.None? || nome.value in NomesCategorias(a.categorias) then Passo(false, a)
    else Passo(true, a.(categorias := a.categorias + [Categoria(a.seqCategorias + 1, nome.value)],
                        seqCategorias := a.seqCategorias + 1))
  }

  /** Adding a category keeps every constraint: category ids and names stay unique. */
  lemma InserirCategoriaIntegro(a: Arquivo, nome: Option<string>)
    requires Integro(a)
    ensures Integro(InserirCategoria(a, nome).depois)
  {
    if nome.Some? && nome.value !in NomesCategorias(a.categorias) {
      var c := Categoria(a.seqCategorias + 1, nome.value);
      assert IdsCategorias(a.categorias + [c]) == IdsCategorias(a.categorias) + [c.id];
      assert NomesCategorias(a.categorias + [c]) == NomesCategorias(a.categorias) + [c.nome];
      NovoId(IdsCategorias(a.categorias), a.seqCategorias);
      NovoValor(NomesCategorias(a.categorias), c.nome);
    }
  }

  /** A duplicate or missing name fails and leaves the file as it was; a new
      name succeeds and adds exactly one row, carrying that name and the next id. */
  lemma AdicionarCategoriaContrato(a: Arquivo, nome: Option<string>)
    ensures var r := InserirCategoria(a, nome);
      r.ok <==> nome.Some? && forall i :: 0 <= i < |a.categorias| ==> a.categorias[i].nome != nome.value
    ensures var r := InserirCategoria(a, nome);
      !r.ok ==> r.depois == a
    ensures var r := InserirCategoria(a, nome);
      r.ok ==> r.depois.categorias == a.categorias + [Categoria(a.seqCategorias + 1, nome.value)]
  {
    forall i | 0 <= i < |a.categorias| ensures NomesCategorias(a.categorias)[i] == a.categorias[i].nome {
    }
  }

  // ---------------------------------------------------------------------
  // adicionar_produto
  // ---------------------------------------------------------------------

  /** `INSERT INTO produtos (nome, quantidade, preco, categoria_id) VALUES (...)`:
      a NULL in a NOT NULL column or an existing name is an IntegrityError,
      turned into `False` with nothing inserted. `categoria_id` may be NULL and
      is not checked against `categorias`; `data_atualizacao` takes its
      default, the current time `agora`. */
  function InserirProduto(a: Arquivo, nome: Option<string>, quantidade: Option<int>,
                          preco: Option<Preco>, categoriaId: Option<int>, agora: Data): (r: Passo)
    ensures r.depois.categorias == a.categorias && r.depois.vendas == a.vendas
    ensures r.depois.usuarios == a.usuarios
  {
    if nome.None? || quantidade.None? || preco.None? then Passo(false, a)
    else if nome.value in NomesProdutos(a.produtos) then Passo(false, a)
    else Passo(true, a.(produtos := a.produtos + [Produto(a.seqProdutos + 1, nome.value, quantidade.value,
                                                          preco.value, categoriaId, agora)],
                        seqProdutos := a.seqProdutos + 1))
  }

  /** Adding a product keeps every constraint: product ids and names stay unique. */
  lemma InserirProdutoIntegro(a: Arquivo, nome: Option<string>, quantidade: Option<int>,
                              preco: Option<Preco>, categoriaId: Option<int>, agora: Data)
    requires Integro(a)
    ensures Integro(InserirProduto(a, nome, quantidade, preco, categoriaId, agora).depois)
  {
    if nome.Some? && quantidade.Some? && preco.Some? && nome.value !in NomesProdutos(a.produtos) {
      var p := Produto(a.seqProdutos + 1, nome.value, quantidade.value, preco.value, categoriaId, agora);
      assert IdsProdutos(a.produtos + [p]) == IdsProdutos(a.produtos) + [p.id];
      assert NomesProdutos(a.produtos + [p]) == NomesProdutos(a.produtos) + [p.nome];
      NovoId(IdsProdutos(a.produtos), a.seqProdutos);
      NovoValor(NomesProdutos(a.produtos), p.nome);
    }
  }

  /** A duplicate name (or a NULL) fails and leaves the file as it was;
      otherwise exactly one row with the given values is added. */
  lemma AdicionarProdutoContrato(a: Arquivo, nome: Option<string>, quantidade: Option<int>,
                                 preco: Option<Preco>, categoriaId: Option<int>, agora: Data)
    ensures var r := InserirProduto(a, nome, quantidade, preco, categoriaId, agora);
      r.ok <==> nome.Some? && quantidade.Some? && preco.Some?
                && forall i :: 0 <= i < |a.produtos| ==> a.produtos[i].nome != nome.value
    ensures var r := InserirProduto(a, nome, quantidade, preco, categoriaId, agora);
      !r.ok ==> r.depois == a
    ensures var r := InserirProduto(a, nome, quantidade, preco, categoriaId, agora);
      r.ok ==> r.depois.produtos == a.produtos + [Produto(a.seqProdutos + 1, nome.value,
                 quantidade.value, preco.value, categoriaId, agora)]
  {
    forall i | 0 <= i < |a.produtos| ensures NomesProdutos(a.produtos)[i] == a.produtos[i].nome {
    }
  }

  // ---------------------------------------------------------------------
  // registrar_venda
  // ---------------------------------------------------------------------

  /** The sale transaction: read quantity and price of the product with that
      id; if there is one and its quantity is at least the requested one,
      decrement it and insert a sale row that carries the product's price and
      the current time `agora`; otherwise change nothing. */
  function Vender(a: Arquivo, produtoId: int, quantidade: int, agora: Data): (r: Passo)
    ensures r.depois.categorias == a.categorias && r.depois.usuarios == a.usuarios
  {
    match Indice(IdsProdutos(a.produtos), produtoId)
    case None => Passo(false, a)
    case Some(k) =>
      var p := a.produtos[k];
      if p.quantidade >= quantidade then
        Passo(true, a.(produtos := a.produtos[k := p.(quantidade := p.quantidade - quantidade)],
                       vendas := a.vendas + [Venda(a.seqVendas + 1, produtoId, quantidade, p.preco, agora)],
                       seqVendas := a.seqVendas + 1))
      else
        Passo(false, a)
  }

  /** A sale keeps every constraint: product ids and names are untouched and
      the new sale gets a fresh id. */
  lemma VenderIntegro(a: Arquivo, produtoId: int, quantidade: int, agora: Data)
    requires Integro(a)
    ensures Integro(Vender(a, produtoId, quantidade, agora).depois)
  {
    var r := Vender(a, produtoId, quantidade, agora);
    if r.ok {
      var k := Indice(IdsProdutos(a.produtos), produtoId).value;
      var v := Venda(a.seqVendas + 1, produtoId, quantidade, a.produtos[k].preco, agora);
      assert IdsProdutos(r.depois.produtos) == IdsProdutos(a.produtos);
      assert NomesProdutos(r.depois.produtos) == NomesProdutos(a.produtos);
      assert IdsVendas(a.vendas + [v]) == IdsVendas(a.vendas) + [v.id];
      NovoId(IdsVendas(a.vendas), a.seqVendas);
    }
  }

  /** Successful sale: if row `i` has enough stock, the sale succeeds, only the
      quantity of that row drops, by exactly the requested amount, and exactly
      one sale row is appended with that product id, that quantity and the
      product's price from before the call. The new stock is never negative. */
  lemma VendaComEstoque(a: Arquivo, i: nat, quantidade: int, agora: Data)
    requires Integro(a)
    requires i < |a.produtos| && a.produtos[i].quantidade >= quantidade
    ensures var p := a.produtos[i]; var r := Vender(a, p.id, quantidade, agora);
      && r.ok
      && r.depois.produtos == a.produtos[i := p.(quantidade := p.quantidade - quantidade)]
      && r.depois.vendas == a.vendas + [Venda(a.seqVendas + 1, p.id, quantidade, p.preco, agora)]
      && r.depois.produtos[i].quantidade >= 0
  {
    assert IdsProdutos(a.produtos)[i] == a.produtos[i].id;
    IndiceDistintos(IdsProdutos(a.produtos), i);
  }

  /** Failed sale: with no product of that id, or too little stock, the sale
      fails and the file (products, sales and the id counter) is unchanged. */
  lemma VendaSemEstoque(a: Arquivo, produtoId: int, quantidade: int, agora: Data)
    requires forall i :: 0 <= i < |a.produtos| && a.produtos[i].id == produtoId ==>
               a.produtos[i].quantidade < quantidade
    ensures var r := Vender(a, produtoId, quantidade, agora); !r.ok && r.depois == a
  {
  }

  /** The sale succeeds exactly when some product has that id and enough stock. */
  lemma VendaCondicao(a: Arquivo, produtoId: int, quantidade: int, agora: Data)
    requires Integro(a)
    ensures Vender(a, produtoId, quantidade, agora).ok <==>
      exists i :: 0 <= i < |a.produtos| && a.produtos[i].id == produtoId
                  && a.produtos[i].quantidade >= quantidade
  {
    if exists i :: 0 <= i < |a.produtos| && a.produtos[i].id == produtoId
                   && a.produtos[i].quantidade >= quantidade {
      var i :| 0 <= i < |a.produtos| && a.produtos[i].id == produtoId
               && a.produtos[i].quantidade >= quantidade;
      VendaComEstoque(a, i, quantidade, agora);
    } else {
      VendaSemEstoque(a, produtoId, quantidade, agora);
    }
  }

  /** Sale frame: every product row other than the one sold is unchanged, and
      of that row only `quantidade` changes (`data_atualizacao` included, which
      the UPDATE does not touch). */
  lemma VendaQuadro(a: Arquivo, produtoId: int, quantidade: int, agora: Data)
    requires Integro(a)
    ensures var r := Vender(a, produtoId, quantidade, agora);
      && |r.depois.produtos| == |a.produtos|
      && forall i :: 0 <= i < |a.produtos| ==>
           if a.produtos[i].id == produtoId && r.ok
           then r.depois.produtos[i] == a.produtos[i].(quantidade := r.depois.produtos[i].quantidade)
           else r.depois.produtos[i] == a.produtos[i]
  {
  }

  /** The code does not reject a zero or negative quantity: such a sale
      succeeds whenever the product exists with stock at least that quantity,
      raises the stock (or leaves it) and records a sale of that quantity. */
  lemma VendaQuantidadeNaoPositiva(a: Arquivo, i: nat, quantidade: int, agora: Data)
    requires Integro(a) && i < |a.produtos|
    requires quantidade <= 0 && a.produtos[i].quantidade >= quantidade
    ensures var r := Vender(a, a.produtos[i].id, quantidade, agora);
      r.ok && r.depois.produtos[i].quantidade >= a.produtos[i].quantidade
      && r.depois.vendas[|a.vendas|].quantidade == quantidade
  {
    VendaComEstoque(a, i, quantidade, agora);
  }

  // ---------------------------------------------------------------------
  // criar_usuario_admin
  // ---------------------------------------------------------------------

  /** `INSERT OR IGNORE INTO usuarios (usuario, senha, papel) VALUES
      ('admin', hash('admin123'), 'admin')`: ignored when the UNIQUE
      `usuario` column already holds 'admin'. */
  function InserirAdmin(a: Arquivo, hash: string -> string): (r: Arquivo)
    ensures r.categorias == a.categorias && r.produtos == a.produtos && r.vendas == a.vendas
  {
    if ADMIN_USUARIO in Logins(a.usuarios) then a
    else a.(usuarios := a.usuarios + [Usuario(a.seqUsuarios + 1, ADMIN_USUARIO, hash(ADMIN_SENHA), ADMIN_PAPEL)],
            seqUsuarios := a.seqUsuarios + 1)
  }

  /** The bootstrap keeps every constraint: user ids and usernames stay unique. */
  lemma InserirAdminIntegro(a: Arquivo, hash: string -> string)
    requires Integro(a)
    ensures Integro(InserirAdmin(a, hash))
  {
    if ADMIN_USUARIO !in Logins(a.usuarios) {
      var u := Usuario(a.seqUsuarios + 1, ADMIN_USUARIO, hash(ADMIN_SENHA), ADMIN_PAPEL);
      assert IdsUsuarios(a.usuarios + [u]) == IdsUsuarios(a.usuarios) + [u.id];
      assert Logins(a.usuarios + [u]) == Logins(a.usuarios) + [u.usuario];
      NovoId(IdsUsuarios(a.usuarios), a.seqUsuarios);
      NovoValor(Logins(a.usuarios), u.usuario);
    }
  }

  /** Bootstrap: with no 'admin' row exactly the row ('admin',
      hash('admin123'), 'admin') is added; with one, the file is unchanged;
      either way exactly one row has usuario 'admin' afterwards. */
  lemma BootstrapAdmin(a: Arquivo, hash: string -> string)
    requires Integro(a)
    ensures var r := InserirAdmin(a, hash);
      (forall i :: 0 <= i < |a.usuarios| ==> a.usuarios[i].usuario != ADMIN_USUARIO) ==>
        r.usuarios == a.usuarios + [Usuario(a.seqUsuarios + 1, ADMIN_USUARIO, hash(ADMIN_SENHA), ADMIN_PAPEL)]
    ensures var r := InserirAdmin(a, hash);
      (exists i :: 0 <= i < |a.usuarios| && a.usuarios[i].usuario == ADMIN_USUARIO) ==> r == a
    ensures Contar(Logins(InserirAdmin(a, hash).usuarios), ADMIN_USUARIO) == 1
  {
    var r := InserirAdmin(a, hash);
    InserirAdminIntegro(a, hash);
    if exists i :: 0 <= i < |a.usuarios| && a.usuarios[i].usuario == ADMIN_USUARIO {
      var i :| 0 <= i < |a.usuarios| && a.usuarios[i].usuario == ADMIN_USUARIO;
      assert Logins(a.usuarios)[i] == ADMIN_USUARIO;
    } else {
      var u := Usuario(a.seqUsuarios + 1, ADMIN_USUARIO, hash(ADMIN_SENHA), ADMIN_PAPEL);
      assert Logins(r.usuarios)[|a.usuarios|] == u.usuario;
    }
    ContarDistintos(Logins(r.usuarios), ADMIN_USUARIO);
  }

  /** The file after the program has been started `n` times (each start runs
      the bootstrap once). */
  function Reiniciar(a: Arquivo, hash: string -> string, n: nat): (r: Arquivo)
    decreases n
  {
    if n == 0 then a else Reiniciar(InserirAdmin(a, hash), hash, n - 1)
  }

  /** The bootstrap is idempotent: any positive number of starts leaves the
      same file as one start, with exactly one 'admin' row. */
  lemma {:induction false} BootstrapIdempotente(a: Arquivo, hash: string -> string, n: nat)
    requires Integro(a) && n >= 1
    decreases n
    ensures Reiniciar(a, hash, n) == InserirAdmin(a, hash)
    ensures Contar(Logins(Reiniciar(a, hash, n).usuarios), ADMIN_USUARIO) == 1
  {
    BootstrapAdmin(a, hash);
    InserirAdminIntegro(a, hash);
    var b := InserirAdmin(a, hash);
    if n > 1 {
      BootstrapAdmin(b, hash);
      assert InserirAdmin(b, hash) == b by {
        ContarDistintos(Logins(b.usuarios), ADMIN_USUARIO);
      }
      BootstrapIdempotente(b, hash, n - 1);
    }
  }

  // ---------------------------------------------------------------------
  // login
  // ---------------------------------------------------------------------

  /** `SELECT senha, papel FROM usuarios WHERE usuario = ?`, then a comparison
      of the stored hash with the hash of the supplied password. */
  function Autenticar(us: seq<Usuario>, hash: string -> string, usuario: string, senha: string): (r: Option<Sessao>)
    ensures r.Some? ==> r.value.usuario == usuario
  {
    match Indice(Logins(us), usuario)
    case None => None
    case Some(k) => if us[k].senha == hash(senha) then Some(Sessao(usuario, us[k].papel)) else None
  }

  /** Login succeeds iff some user row has that username and the hash of that
      password, and then the session carries that row's role; an unknown
      username always fails. */
  lemma LoginCorreto(us: seq<Usuario>, hash: string -> string, usuario: string, senha: string)
    requires Distintos(Logins(us))
    ensures Autenticar(us, hash, usuario, senha).Some? <==>
      exists i :: 0 <= i < |us| && us[i].usuario == usuario && us[i].senha == hash(senha)
    ensures forall i :: 0 <= i < |us| && us[i].usuario == usuario && us[i].senha == hash(senha) ==>
      Autenticar(us, hash, usuario, senha) == Some(Sessao(usuario, us[i].papel))
    ensures (forall i :: 0 <= i < |us| ==> us[i].usuario != usuario) ==>
      Autenticar(us, hash, usuario, senha) == None
  {
    forall i | 0 <= i < |us| && us[i].usuario == usuario
      ensures Indice(Logins(us), usuario) == Some(i)
    {
      assert Logins(us)[i] == usuario;
      IndiceDistintos(Logins(us), i);
    }
    if Indice(Logins(us), usuario).Some? {
      var k := Indice(Logins(us), usuario).value;
      assert us[k].usuario == usuario;
    }
  }

  // ---------------------------------------------------------------------
  // gerar_relatorio_vendas
  // ---------------------------------------------------------------------

  /** `BETWEEN ? AND ?` includes both ends. */
  predicate NoPeriodo(d: Data, inicio: Data, fim: Data) {
    inicio <= d <= fim
  }

  function Linha(v: Venda, p: Produto): (l: LinhaRelatorio) {
    LinhaRelatorio(v.dataVenda, p.nome, v.quantidade, v.precoVenda)
  }

  /** The rows the inner join gives for one sale: one per product row whose id
      is the sale's `produto_id`, when the sale date lies in the period. */
  function Juntar(v: Venda, ps: seq<Produto>, inicio: Data, fim: Data): (r: seq<LinhaRelatorio>)
    ensures |r| <= |ps|
    ensures forall k :: 0 <= k < |r| ==>
      (r[k].dataVenda == v.dataVenda && NoPeriodo(r[k].dataVenda, inicio, fim)
       && r[k].quantidade == v.quantidade && r[k].precoVenda == v.precoVenda)
  {
    if ps == [] then []
    else (if ps[0].id == v.produtoId && NoPeriodo(v.dataVenda, inicio, fim) then [Linha(v, ps[0])] else [])
         + Juntar(v, ps[1..], inicio, fim)
  }

  /** `SELECT v.data_venda, p.nome, v.quantidade, v.preco_venda FROM vendas v
      JOIN produtos p ON v.produto_id = p.id WHERE v.data_venda BETWEEN ? AND ?`,
      in the order of the sales table. */
  function Relatorio(vs: seq<Venda>, ps: seq<Produto>, inicio: Data, fim: Data): (r: seq<LinhaRelatorio>)
    ensures forall k :: 0 <= k < |r| ==> NoPeriodo(r[k].dataVenda, inicio, fim)
  {
    if vs == [] then [] else Juntar(vs[0], ps, inicio, fim) + Relatorio(vs[1..], ps, inicio, fim)
  }

  /** Row `l` is sale `v`, dated within the period, paired with a product
      row of `ps` whose id is the sale's product id. */
  ghost predicate VemDe(l: LinhaRelatorio, v: Venda, ps: seq<Produto>, inicio: Data, fim: Data) {
    NoPeriodo(v.dataVenda, inicio, fim)
    && exists m :: 0 <= m < |ps| && ps[m].id == v.produtoId && l == Linha(v, ps[m])
  }

  /** Every row the join gives for a sale comes from that sale. */
  lemma {:induction false} JuntarSolido(v: Venda, ps: seq<Produto>, inicio: Data, fim: Data)
    ensures forall k :: 0 <= k < |Juntar(v, ps, inicio, fim)| ==> VemDe(Juntar(v, ps, inicio, fim)[k], v, ps, inicio, fim)
  {
    if ps != [] {
      JuntarSolido(v, ps[1..], inicio, fim);
      var cab := if ps[0].id == v.produtoId && NoPeriodo(v.dataVenda, inicio, fim) then [Linha(v, ps[0])] else [];
      var resto := Juntar(v, ps[1..], inicio, fim);
      assert Juntar(v, ps, inicio, fim) == cab + resto;
      forall k | 0 <= k < |cab + resto| ensures VemDe((cab + resto)[k], v, ps, inicio, fim) {
        if k < |cab| {
          assert (cab + resto)[k] == Linha(v, ps[0]);
        } else {
          assert (cab + resto)[k] == resto[k - |cab|];
          assert VemDe(resto[k - |cab|], v, ps[1..], inicio, fim);
          var m :| 0 <= m < |ps[1..]| && ps[1..][m].id == v.produtoId && resto[k - |cab|] == Linha(v, ps[1..][m]);
          assert ps[m + 1] == ps[1..][m];
        }
      }
    }
  }

  /** On a products table without repeated ids, a sale in the period whose
      product is row `m` gives exactly one row, and a sale outside the period
      none. */
  lemma {:induction false} JuntarUnico(v: Venda, ps: seq<Produto>, m: nat, inicio: Data, fim: Data)
    requires Distintos(IdsProdutos(ps))
    requires m < |ps| && ps[m].id == v.produtoId
    ensures Juntar(v, ps, inicio, fim) == if NoPeriodo(v.dataVenda, inicio, fim) then [Linha(v, ps[m])] else []
  {
    assert IdsProdutos(ps)[1..] == IdsProdutos(ps[1..]);
    if m == 0 {
      forall j | 0 <= j < |ps[1..]| ensures ps[1..][j].id != v.produtoId {
        assert IdsProdutos(ps)[j + 1] != IdsProdutos(ps)[0];
      }
      JuntarSemProduto(v, ps[1..], inicio, fim);
    } else {
      assert ps[0].id != v.produtoId by {
        assert IdsProdutos(ps)[0] != IdsProdutos(ps)[m];
      }
      assert ps[1..][m - 1] == ps[m];
      JuntarUnico(v, ps[1..], m - 1, inicio, fim);
    }
  }

  /** A sale whose product id matches no product row gives no row (inner join). */
  lemma {:induction false} JuntarSemProduto(v: Venda, ps: seq<Produto>, inicio: Data, fim: Data)
    requires forall m :: 0 <= m < |ps| ==> ps[m].id != v.produtoId
    ensures Juntar(v, ps, inicio, fim) == []
  {
    if ps != [] {
      assert forall m :: 0 <= m < |ps[1..]| ==> ps[1..][m] == ps[m + 1];
      JuntarSemProduto(v, ps[1..], inicio, fim);
    }
  }

  /** The report over two runs of sales is the report of the first followed by
      the report of the second: each sale contributes its own rows. */
  lemma {:induction false} RelatorioConcat(vs: seq<Venda>, ws: seq<Venda>, ps: seq<Produto>, inicio: Data, fim: Data)
    ensures Relatorio(vs + ws, ps, inicio, fim) == Relatorio(vs, ps, inicio, fim) + Relatorio(ws, ps, inicio, fim)
  {
    if vs == [] {
      assert vs + ws == ws;
    } else {
      assert (vs + ws)[0] == vs[0];
      assert (vs + ws)[1..] == vs[1..] + ws;
      RelatorioConcat(vs[1..], ws, ps, inicio, fim);
    }
  }

  /** Soundness: every row of the report is a sale dated within the period,
      paired with the name of a product whose id is the sale's product id. */
  lemma {:induction false} RelatorioSolido(vs: seq<Venda>, ps: seq<Produto>, inicio: Data, fim: Data)
    ensures forall k :: 0 <= k < |Relatorio(vs, ps, inicio, fim)| ==>
      exists j :: 0 <= j < |vs| && VemDe(Relatorio(vs, ps, inicio, fim)[k], vs[j], ps, inicio, fim)
  {
    if vs != [] {
      var cab := Juntar(vs[0], ps, inicio, fim);
      var resto := Relatorio(vs[1..], ps, inicio, fim);
      assert Relatorio(vs, ps, inicio, fim) == cab + resto;
      JuntarSolido(vs[0], ps, inicio, fim);
      RelatorioSolido(vs[1..], ps, inicio, fim);
      forall k | 0 <= k < |Relatorio(vs, ps, inicio, fim)|
        ensures exists j :: 0 <= j < |vs| && VemDe(Relatorio(vs, ps, inicio, fim)[k], vs[j], ps, inicio, fim)
      {
        var l := Relatorio(vs, ps, inicio, fim)[k];
        if k < |cab| {
          assert l == cab[k];
          assert VemDe(l, vs[0], ps, inicio, fim);
        } else {
          assert l == resto[k - |cab|];
          var j :| 0 <= j < |vs[1..]| && VemDe(l, vs[1..][j], ps, inicio, fim);
          assert vs[j + 1] == vs[1..][j];
          assert VemDe(l, vs[j + 1], ps, inicio, fim);
        }
      }
    } else {
      assert Relatorio(vs, ps, inicio, fim) == [];
    }
  }

  /** Completeness: on a products table without repeated ids, every sale dated
      within the period whose product exists appears in the report, paired
      with that product's name. */
  lemma {:induction false} RelatorioCompleto(vs: seq<Venda>, ps: seq<Produto>, inicio: Data, fim: Data)
    requires Distintos(IdsProdutos(ps))
    ensures forall j, m :: (0 <= j < |vs| && 0 <= m < |ps| && NoPeriodo(vs[j].dataVenda, inicio, fim)
      && ps[m].id == vs[j].produtoId) ==> Linha(vs[j], ps[m]) in Relatorio(vs, ps, inicio, fim)
  {
    if vs != [] {
      RelatorioCompleto(vs[1..], ps, inicio, fim);
      forall j, m | 0 <= j < |vs| && 0 <= m < |ps| && NoPeriodo(vs[j].dataVenda, inicio, fim)
        && ps[m].id == vs[j].produtoId
        ensures Linha(vs[j], ps[m]) in Relatorio(vs, ps, inicio, fim)
      {
        if j == 0 {
          JuntarUnico(vs[0], ps, m, inicio, fim);
        } else {
          assert vs[1..][j - 1] == vs[j];
        }
      }
    }
  }

  /** The sales the report keeps, in the order of the sales table: those
      dated within the period whose product id is in the products table. */
  function Filtrar(vs: seq<Venda>, ps: seq<Produto>, inicio: Data, fim: Data): (ws: seq<Venda>)
    ensures forall k :: 0 <= k < |ws| ==>
      ws[k] in vs && NoPeriodo(ws[k].dataVenda, inicio, fim) && ws[k].produtoId in IdsProdutos(ps)
  {
    if vs == [] then []
    else (if NoPeriodo(vs[0].dataVenda, inicio, fim) && vs[0].produtoId in IdsProdutos(ps) then [vs[0]] else [])
         + Filtrar(vs[1..], ps, inicio, fim)
  }

  /** Each kept sale with the name of the product its id looks up. */
  function Nomear(ws: seq<Venda>, ps: seq<Produto>): (r: seq<LinhaRelatorio>)
    requires forall k :: 0 <= k < |ws| ==> ws[k].produtoId in IdsProdutos(ps)
  {
    seq(|ws|, k requires 0 <= k < |ws| => Linha(ws[k], ps[Indice(IdsProdutos(ps), ws[k].produtoId).value]))
  }

  /** Looking products up distributes over two runs of kept sales. */
  lemma NomearConcat(ws: seq<Venda>, xs: seq<Venda>, ps: seq<Produto>)
    requires forall k :: 0 <= k < |ws| ==> ws[k].produtoId in IdsProdutos(ps)
    requires forall k :: 0 <= k < |xs| ==> xs[k].produtoId in IdsProdutos(ps)
    ensures Nomear(ws + xs, ps) == Nomear(ws, ps) + Nomear(xs, ps)
  {
  }

  /** The rows of one sale, as the join gives them and as the reference does. */
  lemma JuntarReferencia(v: Venda, ps: seq<Produto>, inicio: Data, fim: Data)
    requires Distintos(IdsProdutos(ps))
    ensures var cab := if NoPeriodo(v.dataVenda, inicio, fim) && v.produtoId in IdsProdutos(ps) then [v] else [];
      Juntar(v, ps, inicio, fim) == Nomear(cab, ps)
  {
    if v.produtoId in IdsProdutos(ps) {
      var m := Indice(IdsProdutos(ps), v.produtoId).value;
      JuntarUnico(v, ps, m, inicio, fim);
    } else {
      forall m | 0 <= m < |ps| ensures ps[m].id != v.produtoId {
        assert IdsProdutos(ps)[m] == ps[m].id;
      }
      JuntarSemProduto(v, ps, inicio, fim);
    }
  }

  /** On a products table without repeated ids, the nested-loop join is the
      same as first keeping the sales in the period that have a product and
      then looking each one's product up: one row per such sale, in order. */
  lemma {:induction false} RelatorioReferencia(vs: seq<Venda>, ps: seq<Produto>, inicio: Data, fim: Data)
    requires Distintos(IdsProdutos(ps))
    ensures Relatorio(vs, ps, inicio, fim) == Nomear(Filtrar(vs, ps, inicio, fim), ps)
  {
    if vs == [] {
      assert Relatorio(vs, ps, inicio, fim) == [];
    } else {
      var v := vs[0];
      var cab := if NoPeriodo(v.dataVenda, inicio, fim) && v.produtoId in IdsProdutos(ps) then [v] else [];
      var resto := Filtrar(vs[1..], ps, inicio, fim);
      assert Filtrar(vs, ps, inicio, fim) == cab + resto;
      RelatorioReferencia(vs[1..], ps, inicio, fim);
      JuntarReferencia(v, ps, inicio, fim);
      NomearConcat(cab, resto, ps);
    }
  }

  /** The report reads only the ids and the names of the products. */
  lemma {:induction false} JuntarSoNomes(v: Venda, ps: seq<Produto>, qs: seq<Produto>, inicio: Data, fim: Data)
    requires IdsProdutos(ps) == IdsProdutos(qs) && NomesProdutos(ps) == NomesProdutos(qs)
    ensures Juntar(v, ps, inicio, fim) == Juntar(v, qs, inicio, fim)
  {
    if ps != [] {
      assert |qs| == |ps|;
      assert IdsProdutos(ps)[0] == IdsProdutos(qs)[0] && NomesProdutos(ps)[0] == NomesProdutos(qs)[0];
      assert IdsProdutos(ps[1..]) == IdsProdutos(ps)[1..] && IdsProdutos(qs[1..]) == IdsProdutos(qs)[1..];
      assert NomesProdutos(ps[1..]) == NomesProdutos(ps)[1..] && NomesProdutos(qs[1..]) == NomesProdutos(qs)[1..];
      JuntarSoNomes(v, ps[1..], qs[1..], inicio, fim);
    }
  }

  lemma {:induction false} RelatorioSoNomes(vs: seq<Venda>, ps: seq<Produto>, qs: seq<Produto>, inicio: Data, fim: Data)
    requires IdsProdutos(ps) == IdsProdutos(qs) && NomesProdutos(ps) == NomesProdutos(qs)
    ensures Relatorio(vs, ps, inicio, fim) == Relatorio(vs, qs, inicio, fim)
  {
    if vs != [] {
      JuntarSoNomes(vs[0], ps, qs, inicio, fim);
      RelatorioSoNomes(vs[1..], ps, qs, inicio, fim);
    }
  }

  /** A successful sale made at time `agora` adds to the report of any period
      holding `agora` exactly one row at the end (the sale with the product's
      name) and leaves the rows of the earlier sales as they were; a period
      not holding `agora` gets no new row. */
  lemma VendaNoRelatorio(a: Arquivo, i: nat, quantidade: int, agora: Data, inicio: Data, fim: Data)
    requires Integro(a)
    requires i < |a.produtos| && a.produtos[i].quantidade >= quantidade
    ensures var p := a.produtos[i]; var r := Vender(a, p.id, quantidade, agora);
      Relatorio(r.depois.vendas, r.depois.produtos, inicio, fim) ==
        Relatorio(a.vendas, a.produtos, inicio, fim)
        + (if NoPeriodo(agora, inicio, fim)
           then [LinhaRelatorio(agora, p.nome, quantidade, p.preco)] else [])
  {
    var p := a.produtos[i];
    var r := Vender(a, p.id, quantidade, agora);
    VendaComEstoque(a, i, quantidade, agora);
    VenderIntegro(a, p.id, quantidade, agora);
    var v := Venda(a.seqVendas + 1, p.id, quantidade, p.preco, agora);
    assert IdsProdutos(r.depois.produtos) == IdsProdutos(a.produtos);
    assert NomesProdutos(r.depois.produtos) == NomesProdutos(a.produtos);
    RelatorioConcat(a.vendas, [v], r.depois.produtos, inicio, fim);
    RelatorioSoNomes(a.vendas, r.depois.produtos, a.produtos, inicio, fim);
    assert Distintos(IdsProdutos(r.depois.produtos));
    JuntarUnico(v, r.depois.produtos, i, inicio, fim);
    assert Relatorio([v], r.depois.produtos, inicio, fim) == Juntar(v, r.depois.produtos, inicio, fim) + [];
  }

  // ---------------------------------------------------------------------
  // Any sequence of calls
  // ---------------------------------------------------------------------

  /** The calls a session can make that write to the file; `Inicializacao`
      is a new start of the program (`BancoDados()`). */
  datatype Chamada =
    | NovaCategoria(nome: Option<string>)
    | NovoProduto(nome: Option<string>, quantidade: Option<int>, preco: Option<Preco>,
                  categoriaId: Option<int>, agora: Data)
    | NovaVenda(produtoId: int, vendida: int, agora: Data)
    | Inicializacao

  function Aplicar(a: Arquivo, hash: string -> string, c: Chamada): (r: Arquivo) {
    match c
    case NovaCategoria(nome) => InserirCategoria(a, nome).depois
    case NovoProduto(nome, q, preco, cat, agora) => InserirProduto(a, nome, q, preco, cat, agora).depois
    case NovaVenda(pid, q, agora) => Vender(a, pid, q, agora).depois
    case Inicializacao => InserirAdmin(a, hash)
  }

  function Executar(a: Arquivo, hash: string -> string, cs: seq<Chamada>): (r: Arquivo)
    decreases cs
  {
    if cs == [] then a else Executar(Aplicar(a, hash, cs[0]), hash, cs[1..])
  }

  /** After any sequence of calls the constraints still hold: category,
      product and user names stay unique and every id stays unique. Once an
      'admin' row exists, there stays exactly one and it keeps its position. */
  lemma {:induction false} ExecutarIntegro(a: Arquivo, hash: string -> string, cs: seq<Chamada>)
    requires Integro(a)
    decreases cs
    ensures Integro(Executar(a, hash, cs))
    ensures a.usuarios <= Executar(a, hash, cs).usuarios
    ensures ADMIN_USUARIO in Logins(a.usuarios) ==>
      Contar(Logins(Executar(a, hash, cs).usuarios), ADMIN_USUARIO) == 1
  {
    if cs == [] {
      if ADMIN_USUARIO in Logins(a.usuarios) {
        ContarDistintos(Logins(a.usuarios), ADMIN_USUARIO);
      }
    } else {
      var b := Aplicar(a, hash, cs[0]);
      match cs[0] {
        case NovaCategoria(nome) => InserirCategoriaIntegro(a, nome);
        case NovoProduto(nome, q, preco, cat, agora) => InserirProdutoIntegro(a, nome, q, preco, cat, agora);
        case NovaVenda(pid, q, agora) => VenderIntegro(a, pid, q, agora);
        case Inicializacao => InserirAdminIntegro(a, hash);
      }
      assert a.usuarios <= b.usuarios;
      if ADMIN_USUARIO in Logins(a.usuarios) {
        var k :| 0 <= k < |a.usuarios| && Logins(a.usuarios)[k] == ADMIN_USUARIO;
        assert Logins(b.usuarios)[k] == ADMIN_USUARIO;
      }
      ExecutarIntegro(b, hash, cs[1..]);
    }
  }
}
