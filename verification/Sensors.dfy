/** The part of a sensor's configuration that acquisition reads. */
module Sensors {
  import opened Octets

  datatype Table = Holding | Input

  datatype DataType = Uint16 | Int16 | Uint32 | Int32 | Float32

  datatype WordOrder = BigWord | LittleWord

  /** Register addresses are 0-based; the engineering value is raw * scale + offset. */
  datatype Sensor = Sensor(table: Table, address: u16, dataType: DataType, wordOrder: WordOrder,
                           scale: real, offset: real) {
    /** How many 16-bit registers the value occupies. */
    function Count(): nat { if dataType.Uint16? || dataType.Int16? then 1 else 2 }

    function End(): nat { address + Count() }
  }
}
