// Network connections, reduced to what ownership is about: who they are and
// how often they have been closed.
module Conns {

  datatype Conn = Conn(id: nat)

  class Connection {
    const id: Conn
    var closes: nat

    constructor (id: Conn)
      ensures this.id == id && closes == 0
    {
      this.id := id;
      closes := 0;
    }

    method Close()
      modifies this
      ensures closes == old(closes) + 1
    {
      closes := closes + 1;
    }
  }
}
