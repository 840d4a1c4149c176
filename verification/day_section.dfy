/**
 * The "turnos del día" board: local turns with up to four named players, each standing in
 * one of four canonical positions (side of the court and stroke), edited by changing a
 * player's side or stroke, by dragging a player to another position slot, and by removing,
 * clearing and adding players.
 */
module DaySection {

  import opened Wrappers
  import Lists

  datatype Lado = Izquierda | Derecha
  datatype Rol = Drive | Reves
  datatype Posicion = Posicion(lado: Lado, rol: Rol)

  /** A player without a position, as the layout function takes it. */
  datatype Persona = Persona(nombre: string, avatar: string)

  datatype Jugador = Jugador(nombre: string, avatar: string, lado: Lado, rol: Rol) {
    function Pos(): Posicion { Posicion(lado, rol) }
    function Place(p: Posicion): Jugador { this.(lado := p.lado, rol := p.rol) }
  }

  datatype Estado = Completo | Incompleto | Libre

  datatype Turno = Turno(id: int, hora: string, estado: Estado, jugadores: seq<Jugador>, alquila: Option<string>)

  /** The four canonical positions, in slot order. */
  const PosicionesOrden: seq<Posicion> :=
    [Posicion(Izquierda, Drive), Posicion(Izquierda, Reves), Posicion(Derecha, Drive), Posicion(Derecha, Reves)]

  /** No two players share a name; the board identifies players by name. */
  predicate UniqueNames(js: seq<Jugador>) {
    forall i, j | 0 <= i < j < |js| :: js[i].nombre != js[j].nombre
  }

  function Personas(js: seq<Jugador>): (ps: seq<Persona>)
    ensures |ps| == |js|
    ensures forall i | 0 <= i < |js| :: ps[i].nombre == js[i].nombre && ps[i].avatar == js[i].avatar
  {
    seq(|js|, i requires 0 <= i < |js| => Persona(js[i].nombre, js[i].avatar))
  }

  /** `asignarLadosYRoles`: the first four players, the i-th in the i-th canonical position. */
  function AsignarLadosYRoles(ps: seq<Persona>): (js: seq<Jugador>)
    ensures |js| == if |ps| < 4 then |ps| else 4
    ensures forall i | 0 <= i < |js| :: js[i].nombre == ps[i].nombre && js[i].avatar == ps[i].avatar
    ensures forall i | 0 <= i < |js| :: js[i].Pos() == PosicionesOrden[i]
  {
    var n := if |ps| < 4 then |ps| else 4;
    seq(n, i requires 0 <= i < n => Jugador(ps[i].nombre, ps[i].avatar, PosicionesOrden[i].lado, PosicionesOrden[i].rol))
  }

  /** The layout never puts two players in the same position. */
  lemma AsignarDistinct(ps: seq<Persona>)
    ensures forall i, j | 0 <= i < j < |AsignarLadosYRoles(ps)| ::
      AsignarLadosYRoles(ps)[i].Pos() != AsignarLadosYRoles(ps)[j].Pos()
  {
    var js := AsignarLadosYRoles(ps);
    forall i, j | 0 <= i < j < |js|
      ensures js[i].Pos() != js[j].Pos()
    {
      assert js[i].Pos() == PosicionesOrden[i] && js[j].Pos() == PosicionesOrden[j];
    }
  }

  /** Laying out an already laid-out list again changes nothing. */
  lemma AsignarIdempotent(ps: seq<Persona>)
    ensures AsignarLadosYRoles(Personas(AsignarLadosYRoles(ps))) == AsignarLadosYRoles(ps)
  {
    var js := AsignarLadosYRoles(ps);
    var again := AsignarLadosYRoles(Personas(js));
    assert |again| == |js|;
    forall i | 0 <= i < |js|
      ensures again[i] == js[i]
    {
    }
  }

  /** The index of the first player named `nombre` (`findIndex`). */
  function IndexOfName(js: seq<Jugador>, nombre: string): (r: Option<nat>)
    ensures r.Some? ==> r.value < |js| && js[r.value].nombre == nombre
    ensures r.Some? ==> forall k | 0 <= k < r.value :: js[k].nombre != nombre
    ensures r.None? <==> forall k | 0 <= k < |js| :: js[k].nombre != nombre
    decreases |js|
  {
    if js == [] then None
    else if js[0].nombre == nombre then Some(0)
    else match IndexOfName(js[1..], nombre)
      case None => None
      case Some(k) => Some(k + 1)
  }

  /** The index of the first player standing at `p` (the `find` on side and stroke). */
  function IndexAt(js: seq<Jugador>, p: Posicion): (r: Option<nat>)
    ensures r.Some? ==> r.value < |js| && js[r.value].Pos() == p
    ensures r.Some? ==> forall k | 0 <= k < r.value :: js[k].Pos() != p
    ensures r.None? <==> forall k | 0 <= k < |js| :: js[k].Pos() != p
    decreases |js|
  {
    if js == [] then None
    else if js[0].Pos() == p then Some(0)
    else match IndexAt(js[1..], p)
      case None => None
      case Some(k) => Some(k + 1)
  }

  function MapJugadores(js: seq<Jugador>, f: Jugador -> Jugador): (r: seq<Jugador>)
    ensures |r| == |js|
    ensures forall k | 0 <= k < |js| :: r[k] == f(js[k])
  {
    seq(|js|, k requires 0 <= k < |js| => f(js[k]))
  }

  /** The edit of `cambiarLadoORol`: a new side, or a new stroke. */
  datatype Cambio = CambiarLado(lado: Lado) | CambiarRol(rol: Rol)

  /** `cambiarLadoORol` on one turn. */
  function CambiarEnTurno(t: Turno, nombre: string, cambio: Cambio): (r: Turno)
    ensures r.id == t.id && r.hora == t.hora && r.estado == t.estado && r.alquila == t.alquila
    ensures |r.jugadores| == |t.jugadores|
    ensures forall k | 0 <= k < |t.jugadores| :: r.jugadores[k].nombre == t.jugadores[k].nombre
    ensures IndexOfName(t.jugadores, nombre).None? ==> r == t
  {
    var js := t.jugadores;
    match IndexOfName(js, nombre)
    case None => t
    case Some(idx) =>
      var jugador := js[idx];
      match cambio
      case CambiarLado(valor) =>
        (match IndexAt(js, Posicion(valor, jugador.rol))
        case Some(m) =>
          // the occupant of the target position is returned as it is
          var ocupante := js[m];
          t.(jugadores := MapJugadores(js, (j: Jugador) =>
            if j.nombre == nombre then j.(lado := valor)
            else if j.nombre == ocupante.nombre then j
            else j))
        case None =>
          t.(jugadores := MapJugadores(js, (j: Jugador) => if j.nombre == nombre then j.(lado := valor) else j)))
      case CambiarRol(valor) =>
        match IndexAt(js, Posicion(jugador.lado, valor))
        case Some(m) =>
          var ocupante := js[m];
          t.(jugadores := MapJugadores(js, (j: Jugador) =>
            if j.nombre == nombre then j.(rol := valor)
            else if j.nombre == ocupante.nombre then j.(rol := jugador.rol)
            else j))
        case None =>
          t.(jugadores := MapJugadores(js, (j: Jugador) => if j.nombre == nombre then j.(rol := valor) else j))
  }

  /** Applies `f` to the turns with id `turnoId` and leaves every other turn as it is. */
  function MapTurnos(turnos: seq<Turno>, turnoId: int, f: Turno -> Turno): (r: seq<Turno>)
    ensures |r| == |turnos|
    ensures forall k | 0 <= k < |turnos| && turnos[k].id != turnoId :: r[k] == turnos[k]
    ensures forall k | 0 <= k < |turnos| && turnos[k].id == turnoId :: r[k] == f(turnos[k])
  {
    seq(|turnos|, k requires 0 <= k < |turnos| => if turnos[k].id == turnoId then f(turnos[k]) else turnos[k])
  }

  /** `cambiarLadoORol` on the list of turns. */
  function CambiarLadoORol(turnos: seq<Turno>, turnoId: int, nombre: string, cambio: Cambio): (r: seq<Turno>)
    ensures |r| == |turnos|
    ensures forall k | 0 <= k < |turnos| && turnos[k].id != turnoId :: r[k] == turnos[k]
    ensures forall k | 0 <= k < |turnos| && turnos[k].id == turnoId :: r[k] == CambiarEnTurno(turnos[k], nombre, cambio)
  {
    MapTurnos(turnos, turnoId, (t: Turno) => CambiarEnTurno(t, nombre, cambio))
  }

  /**
   * A side change never swaps: every player named `nombre` takes the new side and every
   * other player, the occupant of the target position included, is left exactly as it was.
   */
  lemma CambiarLadoOnlyMover(t: Turno, nombre: string, valor: Lado)
    requires IndexOfName(t.jugadores, nombre).Some?
    ensures var r := CambiarEnTurno(t, nombre, CambiarLado(valor)).jugadores;
      forall k | 0 <= k < |t.jugadores| ::
        r[k] == if t.jugadores[k].nombre == nombre then t.jugadores[k].(lado := valor) else t.jugadores[k]
  {
  }

  /** So a side change can leave two players in one position. */
  lemma CambiarLadoCanCollide()
    ensures var t := Turno(1, "10:00", Incompleto, AsignarLadosYRoles([Persona("Ana", "A"), Persona("Bea", "B"), Persona("Caro", "C")]), Some("Ana"));
      var r := CambiarEnTurno(t, "Ana", CambiarLado(Derecha));
      r.jugadores[0].Pos() == r.jugadores[2].Pos() == Posicion(Derecha, Drive)
  {
    var t := Turno(1, "10:00", Incompleto, AsignarLadosYRoles([Persona("Ana", "A"), Persona("Bea", "B"), Persona("Caro", "C")]), Some("Ana"));
    assert t.jugadores[0].nombre == "Ana";
    assert IndexOfName(t.jugadores, "Ana") == Some(0);
    CambiarLadoOnlyMover(t, "Ana", Derecha);
    assert t.jugadores[2].nombre != "Ana";
  }

  /**
   * A stroke change onto an occupied position swaps strokes: the mover takes the new stroke,
   * the first occupant of that position takes the mover's old one, sides stay, and nobody
   * else changes. With no occupant only the mover changes.
   */
  lemma CambiarRolSwaps(t: Turno, i: nat, valor: Rol)
    requires UniqueNames(t.jugadores)
    requires i < |t.jugadores|
    ensures var js := t.jugadores;
      var r := CambiarEnTurno(t, js[i].nombre, CambiarRol(valor)).jugadores;
      && r[i] == js[i].(rol := valor)
      && match IndexAt(js, Posicion(js[i].lado, valor))
         case Some(m) =>
           && (m != i ==> r[m] == js[m].(rol := js[i].rol))
           && forall k | 0 <= k < |js| && k != i && k != m :: r[k] == js[k]
         case None =>
           forall k | 0 <= k < |js| && k != i :: r[k] == js[k]
  {
    var js := t.jugadores;
    assert IndexOfName(js, js[i].nombre) == Some(i);
  }

  /** Setting a player's side or stroke to the value it already has changes nothing. */
  lemma CambiarSameValue(t: Turno, nombre: string, cambio: Cambio)
    requires UniqueNames(t.jugadores)
    requires forall k | 0 <= k < |t.jugadores| && t.jugadores[k].nombre == nombre ::
      match cambio
      case CambiarLado(l) => t.jugadores[k].lado == l
      case CambiarRol(o) => t.jugadores[k].rol == o
    ensures CambiarEnTurno(t, nombre, cambio) == t
  {
    var r := CambiarEnTurno(t, nombre, cambio);
    var js := t.jugadores;
    if IndexOfName(js, nombre).Some? {
      var jugador := js[IndexOfName(js, nombre).value];
      forall k | 0 <= k < |js|
        ensures r.jugadores[k] == js[k]
      {
        match cambio
        case CambiarLado(l) =>
        case CambiarRol(o) =>
          var m := IndexAt(js, Posicion(jugador.lado, o));
          if m.Some? && js[k].nombre != nombre && js[k].nombre == js[m.value].nombre {
            SlotIsName(js, m.value);
          }
      }
    }
  }

  /** The players standing at the four canonical positions, first match each (the `slots`). */
  function Slot(js: seq<Jugador>, k: nat): (r: Option<nat>)
    requires k < 4
    ensures r.Some? ==> r.value < |js| && js[r.value].Pos() == PosicionesOrden[k]
  {
    IndexAt(js, PosicionesOrden[k])
  }

  /** `moverJugadorDnD` on one turn's players; drag indices are slot numbers. */
  function MoverEnJugadores(js: seq<Jugador>, src: int, dst: int): (r: seq<Jugador>)
    requires 0 <= dst < 4
    ensures |r| == |js|
    ensures forall k | 0 <= k < |js| :: r[k].nombre == js[k].nombre && r[k].avatar == js[k].avatar
    ensures !(0 <= src < 4) || Slot(js, src).None? ==> r == js
  {
    if !(0 <= src < 4) then js
    else match Slot(js, src)
      case None => js
      case Some(a) =>
        var jugador := js[a];
        var destinoPos := PosicionesOrden[dst];
        match Slot(js, dst)
        case Some(b) =>
          var destino := js[b];
          MapJugadores(js, (j: Jugador) =>
            if j.nombre == jugador.nombre then j.Place(destinoPos)
            else if j.nombre == destino.nombre then j.Place(PosicionesOrden[src])
            else j)
        case None =>
          MapJugadores(js, (j: Jugador) => if j.nombre == jugador.nombre then j.Place(destinoPos) else j)
  }

  /** `moverJugadorDnD` on the list of turns. */
  function MoverJugadorDnD(turnos: seq<Turno>, turnoId: int, src: int, dst: int): (r: seq<Turno>)
    requires 0 <= dst < 4
    ensures |r| == |turnos|
    ensures forall k | 0 <= k < |turnos| && turnos[k].id != turnoId :: r[k] == turnos[k]
    ensures forall k | 0 <= k < |turnos| && turnos[k].id == turnoId ::
      r[k] == turnos[k].(jugadores := MoverEnJugadores(turnos[k].jugadores, src, dst))
  {
    MapTurnos(turnos, turnoId, (t: Turno) => t.(jugadores := MoverEnJugadores(t.jugadores, src, dst)))
  }

  lemma SlotIsName(js: seq<Jugador>, a: nat)
    requires UniqueNames(js) && a < |js|
    ensures forall k | 0 <= k < |js| :: js[k].nombre == js[a].nombre <==> k == a
  {
    forall k | 0 <= k < |js|
      ensures js[k].nombre == js[a].nombre <==> k == a
    {
      if k < a || a < k {
      }
    }
  }

  /**
   * Dropping on an occupied slot exchanges the two players' positions exactly; nobody else
   * moves.
   */
  lemma MoverExchanges(js: seq<Jugador>, src: nat, dst: nat)
    requires UniqueNames(js)
    requires src < 4 && dst < 4 && src != dst
    requires Slot(js, src).Some? && Slot(js, dst).Some?
    ensures var a, b, r := Slot(js, src).value, Slot(js, dst).value, MoverEnJugadores(js, src, dst);
      && r[a] == js[a].Place(PosicionesOrden[dst])
      && r[b] == js[b].Place(PosicionesOrden[src])
      && forall k | 0 <= k < |js| && k != a && k != b :: r[k] == js[k]
  {
    var a, b := Slot(js, src).value, Slot(js, dst).value;
    assert a != b by {
      assert PosicionesOrden[src] != PosicionesOrden[dst];
    }
    SlotIsName(js, a);
    SlotIsName(js, b);
  }

  /** Dropping on an empty slot moves only the dragged player. */
  lemma MoverToEmpty(js: seq<Jugador>, src: nat, dst: nat)
    requires UniqueNames(js)
    requires src < 4 && dst < 4
    requires Slot(js, src).Some? && Slot(js, dst).None?
    ensures var a, r := Slot(js, src).value, MoverEnJugadores(js, src, dst);
      && r[a] == js[a].Place(PosicionesOrden[dst])
      && forall k | 0 <= k < |js| && k != a :: r[k] == js[k]
  {
    SlotIsName(js, Slot(js, src).value);
  }

  /** Dropping a player back on its own slot changes nothing. */
  lemma MoverSameSlot(js: seq<Jugador>, src: nat)
    requires UniqueNames(js)
    requires src < 4
    ensures MoverEnJugadores(js, src, src) == js
  {
    var r := MoverEnJugadores(js, src, src);
    if Slot(js, src).Some? {
      var a := Slot(js, src).value;
      SlotIsName(js, a);
      forall k | 0 <= k < |js|
        ensures r[k] == js[k]
      {
      }
    }
  }

  /** The board's status for a number of players. */
  function EstadoPorCantidad(n: int): (e: Estado)
    ensures e == Libre <==> n == 0
    ensures e == Completo <==> n == 4
  {
    if n == 0 then Libre else if n == 4 then Completo else Incompleto
  }

  /**
   * The `filter` on the name: the players with another name, in their order, and nobody
   * with that name.
   */
  function SinNombre(js: seq<Jugador>, nombre: string): (r: seq<Jugador>)
    ensures |r| <= |js|
    ensures Lists.IsSubseq(r, js)
    ensures forall k | 0 <= k < |r| :: r[k].nombre != nombre && r[k] in js
    ensures forall j | j in js && j.nombre != nombre :: j in r
    ensures (forall k | 0 <= k < |js| :: js[k].nombre != nombre) ==> r == js
    decreases |js|
  {
    if js == [] then []
    else if js[0].nombre == nombre then SinNombre(js[1..], nombre)
    else
      var rest := SinNombre(js[1..], nombre);
      var r := [js[0]] + rest;
      assert r[1..] == rest;
      r
  }

  /** The filter works piece by piece: filtering a concatenation concatenates the filtered pieces. */
  lemma {:induction false} SinNombreAppend(a: seq<Jugador>, b: seq<Jugador>, nombre: string)
    ensures SinNombre(a + b, nombre) == SinNombre(a, nombre) + SinNombre(b, nombre)
    decreases |a|
  {
    if a == [] {
      assert a + b == b;
    } else {
      assert (a + b)[1..] == a[1..] + b;
      SinNombreAppend(a[1..], b, nombre);
    }
  }

  /** With unique names, removing a name that is present removes exactly one player. */
  lemma {:induction false} SinNombreDropsOne(js: seq<Jugador>, nombre: string)
    requires UniqueNames(js)
    requires exists k | 0 <= k < |js| :: js[k].nombre == nombre
    ensures |SinNombre(js, nombre)| == |js| - 1
    decreases |js|
  {
    if js[0].nombre == nombre {
      forall k | 0 <= k < |js[1..]| ensures js[1..][k].nombre != nombre {
        assert js[k + 1].nombre != js[0].nombre;
      }
    } else {
      var k :| 0 <= k < |js| && js[k].nombre == nombre;
      assert js[1..][k - 1].nombre == nombre;
      SinNombreDropsOne(js[1..], nombre);
    }
  }

  /**
   * `handleRemoveJugador` on one turn: the survivors are laid out again from slot 0, the
   * status is taken from the old player count minus one, and the renter is cleared only
   * when that is zero.
   */
  function RemoveEnTurno(t: Turno, nombre: string): (r: Turno)
    ensures r.id == t.id && r.hora == t.hora
    ensures |r.jugadores| <= 4
    ensures var rest := SinNombre(t.jugadores, nombre);
      && |r.jugadores| == (if |rest| < 4 then |rest| else 4)
      && forall k | 0 <= k < |r.jugadores| ::
           r.jugadores[k].nombre == rest[k].nombre && r.jugadores[k].avatar == rest[k].avatar
    ensures forall k | 0 <= k < |r.jugadores| :: r.jugadores[k].nombre != nombre
    ensures forall k | 0 <= k < |r.jugadores| :: r.jugadores[k].Pos() == PosicionesOrden[k]
    ensures r.estado == EstadoPorCantidad(|t.jugadores| - 1)
    ensures r.estado == Libre <==> |t.jugadores| == 1
    ensures r.alquila.None? <==> |t.jugadores| == 1 || t.alquila.None?
    ensures |t.jugadores| != 1 ==> r.alquila == t.alquila
  {
    var n := |t.jugadores| - 1;
    t.(jugadores := AsignarLadosYRoles(Personas(SinNombre(t.jugadores, nombre))),
       estado := EstadoPorCantidad(n),
       alquila := if n == 0 then None else t.alquila)
  }

  function HandleRemoveJugador(turnos: seq<Turno>, turnoId: int, nombre: string): (r: seq<Turno>)
    ensures |r| == |turnos|
    ensures forall k | 0 <= k < |turnos| && turnos[k].id != turnoId :: r[k] == turnos[k]
    ensures forall k | 0 <= k < |turnos| && turnos[k].id == turnoId :: r[k] == RemoveEnTurno(turnos[k], nombre)
  {
    MapTurnos(turnos, turnoId, (t: Turno) => RemoveEnTurno(t, nombre))
  }

  /** Survivors do not keep their slots: removing the first of two players moves the second. */
  lemma RemoveRelaysOut()
    ensures var t := Turno(2, "10:00", Incompleto, AsignarLadosYRoles([Persona("Ana", "A"), Persona("Bea", "B")]), Some("Ana"));
      && t.jugadores[1].Pos() == Posicion(Izquierda, Reves)
      && RemoveEnTurno(t, "Ana").jugadores == [Jugador("Bea", "B", Izquierda, Drive)]
  {
    var t := Turno(2, "10:00", Incompleto, AsignarLadosYRoles([Persona("Ana", "A"), Persona("Bea", "B")]), Some("Ana"));
    assert SinNombre(t.jugadores, "Ana") == [t.jugadores[1]];
  }

  /** The status trusts the old count: removing a name nobody has still drops a full turn to incompleto. */
  lemma RemoveAbsentName(t: Turno, nombre: string)
    requires |t.jugadores| == 4
    requires forall k | 0 <= k < 4 :: t.jugadores[k].nombre != nombre
    requires forall k | 0 <= k < 4 :: t.jugadores[k].Pos() == PosicionesOrden[k]
    ensures RemoveEnTurno(t, nombre).jugadores == t.jugadores
    ensures RemoveEnTurno(t, nombre).estado == Incompleto
  {
    var js := t.jugadores;
    assert SinNombre(js, nombre) == js;
    RemovedFaces(t, nombre);
    FacesAndLayout(RemoveEnTurno(t, nombre).jugadores, js, js);
  }

  /** `handleConfirmClean`: the chosen turn, if any, loses its players, status and renter. */
  function HandleConfirmClean(turnos: seq<Turno>, turnoToClean: Option<int>): (r: seq<Turno>)
    ensures |r| == |turnos|
    ensures turnoToClean.None? ==> r == turnos
    ensures forall k | 0 <= k < |turnos| ::
      if turnoToClean == Some(turnos[k].id)
      then r[k].jugadores == [] && r[k].estado == Libre && r[k].alquila.None? && r[k].id == turnos[k].id
      else r[k] == turnos[k]
  {
    match turnoToClean
    case None => turnos
    case Some(id) => MapTurnos(turnos, id, (t: Turno) => t.(jugadores := [], estado := Libre, alquila := None))
  }

  /** `Array.prototype.splice(start, 0, x)`'s insertion index for a list of `len` items. */
  function SpliceIndex(len: nat, start: int): (c: nat)
    ensures c <= len
    ensures 0 <= start <= len ==> c == start
  {
    if start < 0 then (if len + start < 0 then 0 else len + start)
    else if start < len then start else len
  }

  /** `splice(start, 0, x)`: `x` inserted at the clamped index, the rest kept in order. */
  function Splice<T>(s: seq<T>, start: int, x: T): (r: seq<T>)
    ensures |r| == |s| + 1
    ensures r[SpliceIndex(|s|, start)] == x
    ensures r[..SpliceIndex(|s|, start)] == s[..SpliceIndex(|s|, start)]
    ensures r[SpliceIndex(|s|, start) + 1..] == s[SpliceIndex(|s|, start)..]
  {
    var c := SpliceIndex(|s|, start);
    s[..c] + [x] + s[c..]
  }

  /** `nombre[0]`, with the empty name giving an empty avatar. */
  function Inicial(nombre: string): (a: string)
    ensures |a| <= 1 && a <= nombre
  {
    if nombre == [] then [] else [nombre[0]]
  }

  /**
   * `handleAddJugador` on one turn: any player of that name is dropped, the newcomer is
   * spliced in at `idx`, the list is laid out again (keeping four), the status is taken from
   * the count before truncation, and an existing renter is kept.
   */
  function AddEnTurno(t: Turno, idx: int, nombre: string): (r: Turno)
    ensures r.id == t.id && r.hora == t.hora
    ensures |r.jugadores| <= 4
    ensures var rest := SinNombre(t.jugadores, nombre);
      SplicedBoard(r.jugadores, rest, SpliceIndex(|rest|, idx), nombre)
    ensures forall k | 0 <= k < |r.jugadores| :: r.jugadores[k].Pos() == PosicionesOrden[k]
    ensures r.estado == EstadoPorCantidad(|SinNombre(t.jugadores, nombre)| + 1)
    ensures r.estado != Libre
    ensures r.alquila.Some?
    ensures t.alquila.Some? && t.alquila.value != [] ==> r.alquila == t.alquila
    ensures t.alquila.None? || t.alquila.value == [] ==> r.alquila == Some(nombre)
  {
    var rest := SinNombre(t.jugadores, nombre);
    t.(jugadores := AddedPlayers(rest, idx, nombre),
       estado := EstadoPorCantidad(|rest| + 1),
       alquila := if t.alquila.Some? && t.alquila.value != [] then t.alquila else Some(nombre))
  }

  /**
   * `js` is `rest` with the newcomer spliced in at slot `c` and cut to four: the players before
   * `c` in place, the newcomer with its initial at `c`, the rest shifted one slot on.
   */
  predicate SplicedBoard(js: seq<Jugador>, rest: seq<Jugador>, c: nat, nombre: string) {
    && c <= |rest|
    && |js| == (if |rest| + 1 < 4 then |rest| + 1 else 4)
    && (forall k | 0 <= k < |js| && k < c :: js[k].nombre == rest[k].nombre && js[k].avatar == rest[k].avatar)
    && (c < |js| ==> js[c].nombre == nombre && js[c].avatar == Inicial(nombre))
    && (forall k | 0 <= k < |js| && c < k :: js[k].nombre == rest[k - 1].nombre && js[k].avatar == rest[k - 1].avatar)
  }

  /** The other players `rest` with the newcomer spliced in at `idx`, laid out again. */
  function AddedPlayers(rest: seq<Jugador>, idx: int, nombre: string): (js: seq<Jugador>)
    ensures SplicedBoard(js, rest, SpliceIndex(|rest|, idx), nombre)
    ensures forall k | 0 <= k < |js| :: js[k].Pos() == PosicionesOrden[k]
  {
    var filtered := Personas(rest);
    var p := Persona(nombre, Inicial(nombre));
    SpliceEntries(filtered, idx, p);
    AsignarLadosYRoles(Splice(filtered, idx, p))
  }

  /** Where each entry of a spliced list comes from: before, at and after the insertion index. */
  lemma SpliceEntries<T>(s: seq<T>, start: int, x: T)
    ensures var c, r := SpliceIndex(|s|, start), Splice(s, start, x);
      && (forall k | 0 <= k < c :: r[k] == s[k])
      && r[c] == x
      && (forall k | c < k < |r| :: r[k] == s[k - 1])
  {
    var c, r := SpliceIndex(|s|, start), Splice(s, start, x);
    forall k | 0 <= k < c ensures r[k] == s[k] {
      assert r[k] == r[..c][k];
    }
    forall k | c < k < |r| ensures r[k] == s[k - 1] {
      assert r[k] == r[c + 1..][k - c - 1];
    }
  }

  function HandleAddJugador(turnos: seq<Turno>, turnoId: int, idx: int, nombre: string): (r: seq<Turno>)
    ensures |r| == |turnos|
    ensures forall k | 0 <= k < |turnos| && turnos[k].id != turnoId :: r[k] == turnos[k]
    ensures forall k | 0 <= k < |turnos| && turnos[k].id == turnoId :: r[k] == AddEnTurno(turnos[k], idx, nombre)
  {
    MapTurnos(turnos, turnoId, (t: Turno) => AddEnTurno(t, idx, nombre))
  }

  function NamesOf(js: seq<Jugador>): set<string> {
    set k | 0 <= k < |js| :: js[k].nombre
  }

  lemma SinNombreSubseq(js: seq<Jugador>, nombre: string)
    requires UniqueNames(js)
    ensures UniqueNames(SinNombre(js, nombre))
    ensures forall k | 0 <= k < |SinNombre(js, nombre)| :: SinNombre(js, nombre)[k].nombre in NamesOf(js)
  {
    SinNombreUnique(js, nombre);
    var r := SinNombre(js, nombre);
    forall k | 0 <= k < |r| ensures r[k].nombre in NamesOf(js) {
      var m :| 0 <= m < |js| && js[m] == r[k];
    }
  }

  lemma {:induction false} SinNombreUnique(js: seq<Jugador>, nombre: string)
    requires UniqueNames(js)
    ensures UniqueNames(SinNombre(js, nombre))
    decreases |js|
  {
    if js != [] {
      var tail := js[1..];
      TailUnique(js);
      SinNombreUnique(tail, nombre);
      if js[0].nombre != nombre {
        var rt := SinNombre(tail, nombre);
        forall k | 0 <= k < |rt| ensures rt[k].nombre != js[0].nombre {
          var m :| 0 <= m < |tail| && tail[m] == rt[k];
          assert js[m + 1] == rt[k];
        }
        ConsUnique(js[0], rt);
        assert SinNombre(js, nombre) == [js[0]] + rt;
      }
    }
  }

  lemma TailUnique(js: seq<Jugador>)
    requires js != [] && UniqueNames(js)
    ensures UniqueNames(js[1..])
  {
    var tail := js[1..];
    forall i, j | 0 <= i < j < |tail| ensures tail[i].nombre != tail[j].nombre {
      assert tail[i] == js[i + 1] && tail[j] == js[j + 1];
    }
  }

  lemma ConsUnique(x: Jugador, rt: seq<Jugador>)
    requires UniqueNames(rt) && forall k | 0 <= k < |rt| :: rt[k].nombre != x.nombre
    ensures UniqueNames([x] + rt)
  {
    var s := [x] + rt;
    forall i, j | 0 <= i < j < |s| ensures s[i].nombre != s[j].nombre {
      assert s[j] == rt[j - 1];
      if i > 0 {
        assert s[i] == rt[i - 1];
      }
    }
  }

  /**
   * Adding a player to a board with unique names keeps names unique, and when the clamped
   * insertion index is a slot, the newcomer stands there.
   */
  lemma AddPlacesPlayer(t: Turno, idx: int, nombre: string)
    requires UniqueNames(t.jugadores)
    ensures UniqueNames(AddEnTurno(t, idx, nombre).jugadores)
    ensures var c := SpliceIndex(|SinNombre(t.jugadores, nombre)|, idx);
      c < 4 ==> && AddEnTurno(t, idx, nombre).jugadores[c].nombre == nombre
                && AddEnTurno(t, idx, nombre).jugadores[c].Pos() == PosicionesOrden[c]
  {
    var rest := SinNombre(t.jugadores, nombre);
    SinNombreSubseq(t.jugadores, nombre);
    var filtered := Personas(rest);
    var nuevos := Splice(filtered, idx, Persona(nombre, Inicial(nombre)));
    SplicedNamesDistinct(filtered, idx, nombre, rest);
    LayoutKeepsNamesDistinct(nuevos);
  }

  predicate DistinctPersonas(ps: seq<Persona>) {
    forall i, j | 0 <= i < j < |ps| :: ps[i].nombre != ps[j].nombre
  }

  /** Splicing a new name into distinct names that lack it keeps them distinct. */
  lemma SplicedNamesDistinct(filtered: seq<Persona>, idx: int, nombre: string, rest: seq<Jugador>)
    requires filtered == Personas(rest)
    requires UniqueNames(rest)
    requires forall k | 0 <= k < |rest| :: rest[k].nombre != nombre
    ensures DistinctPersonas(Splice(filtered, idx, Persona(nombre, Inicial(nombre))))
  {
    var nuevos := Splice(filtered, idx, Persona(nombre, Inicial(nombre)));
    forall i, j | 0 <= i < j < |nuevos|
      ensures nuevos[i].nombre != nuevos[j].nombre
    {
      NuevosNames(filtered, idx, nombre, rest, i);
      NuevosNames(filtered, idx, nombre, rest, j);
    }
  }

  /** The layout keeps distinct names distinct. */
  lemma LayoutKeepsNamesDistinct(ps: seq<Persona>)
    requires DistinctPersonas(ps)
    ensures UniqueNames(AsignarLadosYRoles(ps))
  {
  }

  /** Where the i-th entry of the spliced list comes from. */
  lemma NuevosNames(filtered: seq<Persona>, idx: int, nombre: string, rest: seq<Jugador>, i: nat)
    requires filtered == Personas(rest)
    requires UniqueNames(rest)
    requires forall k | 0 <= k < |rest| :: rest[k].nombre != nombre
    requires i < |filtered| + 1
    ensures var c, nuevos := SpliceIndex(|filtered|, idx), Splice(filtered, idx, Persona(nombre, Inicial(nombre)));
      && (i < c ==> nuevos[i].nombre == rest[i].nombre)
      && (i == c ==> nuevos[i].nombre == nombre)
      && (i > c ==> nuevos[i].nombre == rest[i - 1].nombre)
  {
    var c, nuevos := SpliceIndex(|filtered|, idx), Splice(filtered, idx, Persona(nombre, Inicial(nombre)));
    if i < c {
      assert nuevos[i] == nuevos[..c][i];
    } else if i > c {
      assert nuevos[i] == nuevos[c + 1..][i - c - 1];
    }
  }

  /**
   * A player added in front of a full board pushes the last one off, and the status, taken
   * from the count before truncation, says incompleto although four players remain.
   */
  lemma AddToFullBoard(t: Turno, nombre: string)
    requires |t.jugadores| == 4
    requires forall k | 0 <= k < 4 :: t.jugadores[k].nombre != nombre
    ensures var r := AddEnTurno(t, 0, nombre);
      && |r.jugadores| == 4
      && r.estado == Incompleto
      && r.jugadores[0].nombre == nombre
      && forall k | 1 <= k < 4 :: r.jugadores[k].nombre == t.jugadores[k - 1].nombre
  {
    var p := Persona(nombre, Inicial(nombre));
    var filtered := Personas(SinNombre(t.jugadores, nombre));
    assert filtered == Personas(t.jugadores);
    SpliceFront(filtered, p);
    LayoutFront(p, filtered);
  }

  /**
   * Removal undoes addition: on a laid-out board of fewer than four players with unique
   * names, adding a newcomer anywhere and removing them again gives back the same players in
   * the same positions, with the status of that many players.
   */
  lemma AddThenRemoveRestores(t: Turno, idx: int, nombre: string)
    requires |t.jugadores| < 4
    requires forall k | 0 <= k < |t.jugadores| :: t.jugadores[k].nombre != nombre
    requires forall k | 0 <= k < |t.jugadores| :: t.jugadores[k].Pos() == PosicionesOrden[k]
    ensures RemoveEnTurno(AddEnTurno(t, idx, nombre), nombre).jugadores == t.jugadores
    ensures RemoveEnTurno(AddEnTurno(t, idx, nombre), nombre).estado == EstadoPorCantidad(|t.jugadores|)
  {
    var added := AddEnTurno(t, idx, nombre);
    var rest := SinNombre(added.jugadores, nombre);
    AddedSurvivors(t, idx, nombre);
    var r := RemoveEnTurno(added, nombre).jugadores;
    RemovedFaces(added, nombre);
    FacesAndLayout(r, rest, t.jugadores);
  }

  /** Two boards whose players agree one by one in name and avatar. */
  predicate SameFaces(x: seq<Jugador>, y: seq<Jugador>) {
    |x| == |y| && forall k | 0 <= k < |x| :: x[k].nombre == y[k].nombre && x[k].avatar == y[k].avatar
  }

  /** A board laid out from slot 0 in the fixed position order. */
  predicate LaidOut(js: seq<Jugador>) {
    |js| <= 4 && forall k | 0 <= k < |js| :: js[k].Pos() == PosicionesOrden[k]
  }

  /** Two laid-out boards with the same faces are the same board. */
  lemma FacesAndLayout(x: seq<Jugador>, y: seq<Jugador>, z: seq<Jugador>)
    requires SameFaces(x, y) && SameFaces(y, z) && LaidOut(x) && LaidOut(z)
    ensures x == z
  {
    forall k | 0 <= k < |x| ensures x[k] == z[k] {
      assert x[k].Pos() == z[k].Pos();
    }
  }

  /** Removal keeps the faces of the players without the name and lays them out again. */
  lemma RemovedFaces(u: Turno, nombre: string)
    requires |SinNombre(u.jugadores, nombre)| <= 4
    ensures SameFaces(RemoveEnTurno(u, nombre).jugadores, SinNombre(u.jugadores, nombre))
    ensures LaidOut(RemoveEnTurno(u, nombre).jugadores)
  {
  }

  /** After adding a newcomer to a board without that name, the others are the old board's faces. */
  lemma AddedSurvivors(t: Turno, idx: int, nombre: string)
    requires |t.jugadores| < 4
    requires forall k | 0 <= k < |t.jugadores| :: t.jugadores[k].nombre != nombre
    ensures SameFaces(SinNombre(AddEnTurno(t, idx, nombre).jugadores, nombre), t.jugadores)
  {
    AddedAroundBoard(t, idx, nombre);
    SurvivorsAround(t.jugadores, AddEnTurno(t, idx, nombre).jugadores, SpliceIndex(|t.jugadores|, idx), nombre);
  }

  /** The newcomer at slot `c` of `a`, with the players of `js` before and after it. */
  predicate SurroundsAt(a: seq<Jugador>, js: seq<Jugador>, c: nat, nombre: string) {
    && |a| == |js| + 1 && c <= |js| && a[c].nombre == nombre
    && (forall k | 0 <= k < |a| && k < c :: a[k].nombre == js[k].nombre && a[k].avatar == js[k].avatar)
    && (forall k | 0 <= k < |a| && c < k :: a[k].nombre == js[k - 1].nombre && a[k].avatar == js[k - 1].avatar)
    && (forall k | 0 <= k < |a| && k != c :: a[k].nombre != nombre)
  }

  /** Taking the newcomer out again leaves the faces of `js`. */
  lemma SurvivorsAround(js: seq<Jugador>, a: seq<Jugador>, c: nat, nombre: string)
    requires SurroundsAt(a, js, c, nombre)
    ensures SameFaces(SinNombre(a, nombre), js)
  {
    SinNombreSkip(a, c, nombre);
    SkipFaces(js, a, c, nombre);
  }

  /** Slot `c` skipped, the board around the newcomer has the faces of `js`. */
  lemma SkipFaces(js: seq<Jugador>, a: seq<Jugador>, c: nat, nombre: string)
    requires SurroundsAt(a, js, c, nombre)
    ensures SameFaces(a[..c] + a[c + 1..], js)
  {
    var survivors := a[..c] + a[c + 1..];
    forall k | 0 <= k < |js| ensures survivors[k].nombre == js[k].nombre && survivors[k].avatar == js[k].avatar {
      if k < c {
        assert survivors[k] == a[k];
      } else {
        assert survivors[k] == a[k + 1];
      }
    }
  }

  /** Adding a newcomer to a board without that name: the old players around the newcomer's slot. */
  lemma AddedAroundBoard(t: Turno, idx: int, nombre: string)
    requires |t.jugadores| < 4
    requires forall k | 0 <= k < |t.jugadores| :: t.jugadores[k].nombre != nombre
    ensures SurroundsAt(AddEnTurno(t, idx, nombre).jugadores, t.jugadores, SpliceIndex(|t.jugadores|, idx), nombre)
  {
    var js := t.jugadores;
    assert SinNombre(js, nombre) == js;
    assert AddEnTurno(t, idx, nombre).jugadores == AddedPlayers(js, idx, nombre);
    AddedAround(js, idx, nombre);
  }

  lemma AddedAround(js: seq<Jugador>, idx: int, nombre: string)
    requires |js| < 4
    requires forall k | 0 <= k < |js| :: js[k].nombre != nombre
    ensures SurroundsAt(AddedPlayers(js, idx, nombre), js, SpliceIndex(|js|, idx), nombre)
  {
  }

  /** Removing the name of the one player at `c` who has it leaves the others, in order. */
  lemma {:induction false} SinNombreSkip(a: seq<Jugador>, c: nat, nombre: string)
    requires c < |a| && a[c].nombre == nombre
    requires forall k | 0 <= k < |a| && k != c :: a[k].nombre != nombre
    ensures SinNombre(a, nombre) == a[..c] + a[c + 1..]
    decreases c
  {
    if c == 0 {
      SinNombreNoneAfterFirst(a, nombre);
      assert a[..0] + a[1..] == a[1..];
    } else {
      SinNombreSkip(a[1..], c - 1, nombre);
      SinNombreKeepsFirst(a, nombre);
      SkipAfterFirst(a, c);
    }
  }

  /** When only the first player has the name, removing it leaves the rest. */
  lemma SinNombreNoneAfterFirst(a: seq<Jugador>, nombre: string)
    requires 0 < |a| && a[0].nombre == nombre
    requires forall k | 1 <= k < |a| :: a[k].nombre != nombre
    ensures SinNombre(a, nombre) == a[1..]
  {
    var tail := a[1..];
    assert forall k | 0 <= k < |tail| :: tail[k].nombre != nombre by {
      forall k | 0 <= k < |tail| ensures tail[k].nombre != nombre {
        assert tail[k] == a[k + 1];
      }
    }
  }

  /** A first player without the name stays in front of the filtered rest. */
  lemma SinNombreKeepsFirst(a: seq<Jugador>, nombre: string)
    requires 0 < |a| && a[0].nombre != nombre
    ensures SinNombre(a, nombre) == [a[0]] + SinNombre(a[1..], nombre)
  {
  }

  /** Skipping slot `c` of a sequence is its first element, then slot `c - 1` skipped in the rest. */
  lemma SkipAfterFirst<T>(a: seq<T>, c: nat)
    requires 0 < c < |a|
    ensures [a[0]] + (a[1..][..c - 1] + a[1..][c..]) == a[..c] + a[c + 1..]
  {
    assert a[1..][..c - 1] == a[1..c];
    assert a[1..][c..] == a[c + 1..];
    assert [a[0]] + a[1..c] == a[..c];
  }


  /**
   * On a board with unique names, removing a player who is there leaves a status that matches
   * the players left on the board.
   */
  lemma RemovePresentStatusMatches(t: Turno, nombre: string)
    requires |t.jugadores| <= 4
    requires UniqueNames(t.jugadores)
    requires exists k | 0 <= k < |t.jugadores| :: t.jugadores[k].nombre == nombre
    ensures |RemoveEnTurno(t, nombre).jugadores| == |t.jugadores| - 1
    ensures RemoveEnTurno(t, nombre).estado == EstadoPorCantidad(|RemoveEnTurno(t, nombre).jugadores|)
  {
    SinNombreDropsOne(t.jugadores, nombre);
  }

  lemma SpliceFront(ps: seq<Persona>, p: Persona)
    ensures Splice(ps, 0, p) == [p] + ps
  {
    assert SpliceIndex(|ps|, 0) == 0;
  }

  /** Laying out a newcomer before four players keeps the newcomer and the first three. */
  lemma LayoutFront(p: Persona, ps: seq<Persona>)
    requires |ps| == 4
    ensures var js := AsignarLadosYRoles([p] + ps);
      && |js| == 4 && js[0].nombre == p.nombre
      && forall k | 1 <= k < 4 :: js[k].nombre == ps[k - 1].nombre
  {
    var qs := [p] + ps;
    assert forall k | 1 <= k < 4 :: qs[k] == ps[k - 1];
  }
}
