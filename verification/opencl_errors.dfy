/** `OpenCLManager::GetCLErrorString`: the name of an OpenCL status code.
    The switch lists 0 (success) with the run-time and JIT compiler errors
    -1..-19, the compile-time errors -30..-68 and the extension errors
    -1000..-1005; every other code falls through to one generic message. */
module OpenClErrors {

  import opened Common

  /** The `default` case of the switch. */
  const Unknown: string := "Unknown OpenCL error"

  /** The first section of the switch: success and the
      run-time and JIT compiler errors. */
  predicate IsRuntime(code: int)
  {
    -19 <= code <= 0
  }

  /** The section of the compile-time errors. */
  predicate IsCompileTime(code: int)
  {
    -68 <= code <= -30
  }

  /** The section of the extension errors. */
  predicate IsExtension(code: int)
  {
    -1005 <= code <= -1000
  }

  /** The codes the switch lists: its three sections. */
  predicate Listed(code: int)
  {
    -19 <= code <= 0 || -68 <= code <= -30 || -1005 <= code <= -1000
  }

  /** The switch of `GetCLErrorString`, with its `default` case, which
      takes every code outside the listed sections, tested first. */
  function ErrorString(code: int): string
  {
    if !Listed(code) then Unknown else
    match code
    case 0 => "CL_SUCCESS"
    case -1 => "CL_DEVICE_NOT_FOUND"
    case -2 => "CL_DEVICE_NOT_AVAILABLE"
    case -3 => "CL_COMPILER_NOT_AVAILABLE"
    case -4 => "CL_MEM_OBJECT_ALLOCATION_FAILURE"
    case -5 => "CL_OUT_OF_RESOURCES"
    case -6 => "CL_OUT_OF_HOST_MEMORY"
    case -7 => "CL_PROFILING_INFO_NOT_AVAILABLE"
    case -8 => "CL_MEM_COPY_OVERLAP"
    case -9 => "CL_IMAGE_FORMAT_MISMATCH"
    case -10 => "CL_IMAGE_FORMAT_NOT_SUPPORTED"
    case -11 => "CL_BUILD_PROGRAM_FAILURE"
    case -12 => "CL_MAP_FAILURE"
    case -13 => "CL_MISALIGNED_SUB_BUFFER_OFFSET"
    case -14 => "CL_EXEC_STATUS_ERROR_FOR_EVENTS_IN_WAIT_LIST"
    case -15 => "CL_COMPILE_PROGRAM_FAILURE"
    case -16 => "CL_LINKER_NOT_AVAILABLE"
    case -17 => "CL_LINK_PROGRAM_FAILURE"
    case -18 => "CL_DEVICE_PARTITION_FAILED"
    case -19 => "CL_KERNEL_ARG_INFO_NOT_AVAILABLE"
    case -30 => "CL_INVALID_VALUE"
    case -31 => "CL_INVALID_DEVICE_TYPE"
    case -32 => "CL_INVALID_PLATFORM"
    case -33 => "CL_INVALID_DEVICE"
    case -34 => "CL_INVALID_CONTEXT"
    case -35 => "CL_INVALID_QUEUE_PROPERTIES"
    case -36 => "CL_INVALID_COMMAND_QUEUE"
    case -37 => "CL_INVALID_HOST_PTR"
    case -38 => "CL_INVALID_MEM_OBJECT"
    case -39 => "CL_INVALID_IMAGE_FORMAT_DESCRIPTOR"
    case -40 => "CL_INVALID_IMAGE_SIZE"
    case -41 => "CL_INVALID_SAMPLER"
    case -42 => "CL_INVALID_BINARY"
    case -43 => "CL_INVALID_BUILD_OPTIONS"
    case -44 => "CL_INVALID_PROGRAM"
    case -45 => "CL_INVALID_PROGRAM_EXECUTABLE"
    case -46 => "CL_INVALID_KERNEL_NAME"
    case -47 => "CL_INVALID_KERNEL_DEFINITION"
    case -48 => "CL_INVALID_KERNEL"
    case -49 => "CL_INVALID_ARG_INDEX"
    case -50 => "CL_INVALID_ARG_VALUE"
    case -51 => "CL_INVALID_ARG_SIZE"
    case -52 => "CL_INVALID_KERNEL_ARGS"
    case -53 => "CL_INVALID_WORK_DIMENSION"
    case -54 => "CL_INVALID_WORK_GROUP_SIZE"
    case -55 => "CL_INVALID_WORK_ITEM_SIZE"
    case -56 => "CL_INVALID_GLOBAL_OFFSET"
    case -57 => "CL_INVALID_EVENT_WAIT_LIST"
    case -58 => "CL_INVALID_EVENT"
    case -59 => "CL_INVALID_OPERATION"
    case -60 => "CL_INVALID_GL_OBJECT"
    case -61 => "CL_INVALID_BUFFER_SIZE"
    case -62 => "CL_INVALID_MIP_LEVEL"
    case -63 => "CL_INVALID_GLOBAL_WORK_SIZE"
    case -64 => "CL_INVALID_PROPERTY"
    case -65 => "CL_INVALID_IMAGE_DESCRIPTOR"
    case -66 => "CL_INVALID_COMPILER_OPTIONS"
    case -67 => "CL_INVALID_LINKER_OPTIONS"
    case -68 => "CL_INVALID_DEVICE_PARTITION_COUNT"
    case -1000 => "CL_INVALID_GL_SHAREGROUP_REFERENCE_KHR"
    case -1001 => "CL_PLATFORM_NOT_FOUND_KHR"
    case -1002 => "CL_INVALID_D3D10_DEVICE_KHR"
    case -1003 => "CL_INVALID_D3D10_RESOURCE_KHR"
    case -1004 => "CL_D3D10_RESOURCE_ALREADY_ACQUIRED_KHR"
    case -1005 => "CL_D3D10_RESOURCE_NOT_ACQUIRED_KHR"
    case _ => Unknown
  }

  /** The inverse of the table, defined independently and keyed first on
      the length of the name: the listed code whose name is `s`, if any. */
  function CodeOf(s: string): Option<int>
  {
    match |s|
    case 10 => if s == "CL_SUCCESS" then Some(0) else None
    case 14 => if s == "CL_MAP_FAILURE" then Some(-12) else None
    case 16 =>
      if s == "CL_INVALID_VALUE" then Some(-30)
      else if s == "CL_INVALID_EVENT" then Some(-58)
      else None
    case 17 =>
      if s == "CL_INVALID_DEVICE" then Some(-33)
      else if s == "CL_INVALID_BINARY" then Some(-42)
      else if s == "CL_INVALID_KERNEL" then Some(-48)
      else None
    case 18 =>
      if s == "CL_INVALID_CONTEXT" then Some(-34)
      else if s == "CL_INVALID_SAMPLER" then Some(-41)
      else if s == "CL_INVALID_PROGRAM" then Some(-44)
      else None
    case 19 =>
      if s == "CL_DEVICE_NOT_FOUND" then Some(-1)
      else if s == "CL_OUT_OF_RESOURCES" then Some(-5)
      else if s == "CL_MEM_COPY_OVERLAP" then Some(-8)
      else if s == "CL_INVALID_PLATFORM" then Some(-32)
      else if s == "CL_INVALID_HOST_PTR" then Some(-37)
      else if s == "CL_INVALID_ARG_SIZE" then Some(-51)
      else if s == "CL_INVALID_PROPERTY" then Some(-64)
      else None
    case 20 =>
      if s == "CL_INVALID_ARG_INDEX" then Some(-49)
      else if s == "CL_INVALID_ARG_VALUE" then Some(-50)
      else if s == "CL_INVALID_OPERATION" then Some(-59)
      else if s == "CL_INVALID_GL_OBJECT" then Some(-60)
      else if s == "CL_INVALID_MIP_LEVEL" then Some(-62)
      else None
    case 21 =>
      if s == "CL_OUT_OF_HOST_MEMORY" then Some(-6)
      else if s == "CL_INVALID_MEM_OBJECT" then Some(-38)
      else if s == "CL_INVALID_IMAGE_SIZE" then Some(-40)
      else None
    case 22 =>
      if s == "CL_INVALID_DEVICE_TYPE" then Some(-31)
      else if s == "CL_INVALID_KERNEL_NAME" then Some(-46)
      else if s == "CL_INVALID_KERNEL_ARGS" then Some(-52)
      else if s == "CL_INVALID_BUFFER_SIZE" then Some(-61)
      else None
    case 23 =>
      if s == "CL_DEVICE_NOT_AVAILABLE" then Some(-2)
      else if s == "CL_LINKER_NOT_AVAILABLE" then Some(-16)
      else if s == "CL_LINK_PROGRAM_FAILURE" then Some(-17)
      else None
    case 24 =>
      if s == "CL_IMAGE_FORMAT_MISMATCH" then Some(-9)
      else if s == "CL_BUILD_PROGRAM_FAILURE" then Some(-11)
      else if s == "CL_INVALID_COMMAND_QUEUE" then Some(-36)
      else if s == "CL_INVALID_BUILD_OPTIONS" then Some(-43)
      else if s == "CL_INVALID_GLOBAL_OFFSET" then Some(-56)
      else None
    case 25 =>
      if s == "CL_COMPILER_NOT_AVAILABLE" then Some(-3)
      else if s == "CL_INVALID_WORK_DIMENSION" then Some(-53)
      else if s == "CL_INVALID_WORK_ITEM_SIZE" then Some(-55)
      else if s == "CL_INVALID_LINKER_OPTIONS" then Some(-67)
      else if s == "CL_PLATFORM_NOT_FOUND_KHR" then Some(-1001)
      else None
    case 26 =>
      if s == "CL_COMPILE_PROGRAM_FAILURE" then Some(-15)
      else if s == "CL_DEVICE_PARTITION_FAILED" then Some(-18)
      else if s == "CL_INVALID_WORK_GROUP_SIZE" then Some(-54)
      else if s == "CL_INVALID_EVENT_WAIT_LIST" then Some(-57)
      else None
    case 27 =>
      if s == "CL_INVALID_QUEUE_PROPERTIES" then Some(-35)
      else if s == "CL_INVALID_GLOBAL_WORK_SIZE" then Some(-63)
      else if s == "CL_INVALID_IMAGE_DESCRIPTOR" then Some(-65)
      else if s == "CL_INVALID_COMPILER_OPTIONS" then Some(-66)
      else if s == "CL_INVALID_D3D10_DEVICE_KHR" then Some(-1002)
      else None
    case 28 => if s == "CL_INVALID_KERNEL_DEFINITION" then Some(-47) else None
    case 29 =>
      if s == "CL_IMAGE_FORMAT_NOT_SUPPORTED" then Some(-10)
      else if s == "CL_INVALID_PROGRAM_EXECUTABLE" then Some(-45)
      else if s == "CL_INVALID_D3D10_RESOURCE_KHR" then Some(-1003)
      else None
    case 31 =>
      if s == "CL_PROFILING_INFO_NOT_AVAILABLE" then Some(-7)
      else if s == "CL_MISALIGNED_SUB_BUFFER_OFFSET" then Some(-13)
      else None
    case 32 =>
      if s == "CL_MEM_OBJECT_ALLOCATION_FAILURE" then Some(-4)
      else if s == "CL_KERNEL_ARG_INFO_NOT_AVAILABLE" then Some(-19)
      else None
    case 33 => if s == "CL_INVALID_DEVICE_PARTITION_COUNT" then Some(-68) else None
    case 34 =>
      if s == "CL_INVALID_IMAGE_FORMAT_DESCRIPTOR" then Some(-39)
      else if s == "CL_D3D10_RESOURCE_NOT_ACQUIRED_KHR" then Some(-1005)
      else None
    case 38 =>
      if s == "CL_INVALID_GL_SHAREGROUP_REFERENCE_KHR" then Some(-1000)
      else if s == "CL_D3D10_RESOURCE_ALREADY_ACQUIRED_KHR" then Some(-1004)
      else None
    case 44 => if s == "CL_EXEC_STATUS_ERROR_FOR_EVENTS_IN_WAIT_LIST" then Some(-14) else None
    case _ => None
  }

  // The name of each listed code, and the inverse of each name.

  lemma Entry0()
    ensures ErrorString(0) == "CL_SUCCESS" && CodeOf("CL_SUCCESS") == Some(0)
  {
  }

  lemma Entry1()
    ensures ErrorString(-1) == "CL_DEVICE_NOT_FOUND" && CodeOf("CL_DEVICE_NOT_FOUND") == Some(-1)
  {
  }

  lemma Entry2()
    ensures ErrorString(-2) == "CL_DEVICE_NOT_AVAILABLE" && CodeOf("CL_DEVICE_NOT_AVAILABLE") == Some(-2)
  {
  }

  lemma Entry3()
    ensures ErrorString(-3) == "CL_COMPILER_NOT_AVAILABLE" && CodeOf("CL_COMPILER_NOT_AVAILABLE") == Some(-3)
  {
  }

  lemma Entry4()
    ensures ErrorString(-4) == "CL_MEM_OBJECT_ALLOCATION_FAILURE" && CodeOf("CL_MEM_OBJECT_ALLOCATION_FAILURE") == Some(-4)
  {
  }

  lemma Entry5()
    ensures ErrorString(-5) == "CL_OUT_OF_RESOURCES" && CodeOf("CL_OUT_OF_RESOURCES") == Some(-5)
  {
  }

  lemma Entry6()
    ensures ErrorString(-6) == "CL_OUT_OF_HOST_MEMORY" && CodeOf("CL_OUT_OF_HOST_MEMORY") == Some(-6)
  {
  }

  lemma Entry7()
    ensures ErrorString(-7) == "CL_PROFILING_INFO_NOT_AVAILABLE" && CodeOf("CL_PROFILING_INFO_NOT_AVAILABLE") == Some(-7)
  {
  }

  lemma Entry8()
    ensures ErrorString(-8) == "CL_MEM_COPY_OVERLAP" && CodeOf("CL_MEM_COPY_OVERLAP") == Some(-8)
  {
  }

  lemma Entry9()
    ensures ErrorString(-9) == "CL_IMAGE_FORMAT_MISMATCH" && CodeOf("CL_IMAGE_FORMAT_MISMATCH") == Some(-9)
  {
  }

  lemma Entry10()
    ensures ErrorString(-10) == "CL_IMAGE_FORMAT_NOT_SUPPORTED" && CodeOf("CL_IMAGE_FORMAT_NOT_SUPPORTED") == Some(-10)
  {
  }

  lemma Entry11()
    ensures ErrorString(-11) == "CL_BUILD_PROGRAM_FAILURE" && CodeOf("CL_BUILD_PROGRAM_FAILURE") == Some(-11)
  {
  }

  lemma Entry12()
    ensures ErrorString(-12) == "CL_MAP_FAILURE" && CodeOf("CL_MAP_FAILURE") == Some(-12)
  {
  }

  lemma Entry13()
    ensures ErrorString(-13) == "CL_MISALIGNED_SUB_BUFFER_OFFSET" && CodeOf("CL_MISALIGNED_SUB_BUFFER_OFFSET") == Some(-13)
  {
  }

  lemma Entry14()
    ensures ErrorString(-14) == "CL_EXEC_STATUS_ERROR_FOR_EVENTS_IN_WAIT_LIST" && CodeOf("CL_EXEC_STATUS_ERROR_FOR_EVENTS_IN_WAIT_LIST") == Some(-14)
  {
  }

  lemma Entry15()
    ensures ErrorString(-15) == "CL_COMPILE_PROGRAM_FAILURE" && CodeOf("CL_COMPILE_PROGRAM_FAILURE") == Some(-15)
  {
  }

  lemma Entry16()
    ensures ErrorString(-16) == "CL_LINKER_NOT_AVAILABLE" && CodeOf("CL_LINKER_NOT_AVAILABLE") == Some(-16)
  {
  }

  lemma Entry17()
    ensures ErrorString(-17) == "CL_LINK_PROGRAM_FAILURE" && CodeOf("CL_LINK_PROGRAM_FAILURE") == Some(-17)
  {
  }

  lemma Entry18()
    ensures ErrorString(-18) == "CL_DEVICE_PARTITION_FAILED" && CodeOf("CL_DEVICE_PARTITION_FAILED") == Some(-18)
  {
  }

  lemma Entry19()
    ensures ErrorString(-19) == "CL_KERNEL_ARG_INFO_NOT_AVAILABLE" && CodeOf("CL_KERNEL_ARG_INFO_NOT_AVAILABLE") == Some(-19)
  {
  }

  lemma Entry30()
    ensures ErrorString(-30) == "CL_INVALID_VALUE" && CodeOf("CL_INVALID_VALUE") == Some(-30)
  {
  }

  lemma Entry31()
    ensures ErrorString(-31) == "CL_INVALID_DEVICE_TYPE" && CodeOf("CL_INVALID_DEVICE_TYPE") == Some(-31)
  {
  }

  lemma Entry32()
    ensures ErrorString(-32) == "CL_INVALID_PLATFORM" && CodeOf("CL_INVALID_PLATFORM") == Some(-32)
  {
  }

  lemma Entry33()
    ensures ErrorString(-33) == "CL_INVALID_DEVICE" && CodeOf("CL_INVALID_DEVICE") == Some(-33)
  {
  }

  lemma Entry34()
    ensures ErrorString(-34) == "CL_INVALID_CONTEXT" && CodeOf("CL_INVALID_CONTEXT") == Some(-34)
  {
  }

  lemma Entry35()
    ensures ErrorString(-35) == "CL_INVALID_QUEUE_PROPERTIES" && CodeOf("CL_INVALID_QUEUE_PROPERTIES") == Some(-35)
  {
  }

  lemma Entry36()
    ensures ErrorString(-36) == "CL_INVALID_COMMAND_QUEUE" && CodeOf("CL_INVALID_COMMAND_QUEUE") == Some(-36)
  {
  }

  lemma Entry37()
    ensures ErrorString(-37) == "CL_INVALID_HOST_PTR" && CodeOf("CL_INVALID_HOST_PTR") == Some(-37)
  {
  }

  lemma Entry38()
    ensures ErrorString(-38) == "CL_INVALID_MEM_OBJECT" && CodeOf("CL_INVALID_MEM_OBJECT") == Some(-38)
  {
  }

  lemma Entry39()
    ensures ErrorString(-39) == "CL_INVALID_IMAGE_FORMAT_DESCRIPTOR" && CodeOf("CL_INVALID_IMAGE_FORMAT_DESCRIPTOR") == Some(-39)
  {
  }

  lemma Entry40()
    ensures ErrorString(-40) == "CL_INVALID_IMAGE_SIZE" && CodeOf("CL_INVALID_IMAGE_SIZE") == Some(-40)
  {
  }

  lemma Entry41()
    ensures ErrorString(-41) == "CL_INVALID_SAMPLER" && CodeOf("CL_INVALID_SAMPLER") == Some(-41)
  {
  }

  lemma Entry42()
    ensures ErrorString(-42) == "CL_INVALID_BINARY" && CodeOf("CL_INVALID_BINARY") == Some(-42)
  {
  }

  lemma Entry43()
    ensures ErrorString(-43) == "CL_INVALID_BUILD_OPTIONS" && CodeOf("CL_INVALID_BUILD_OPTIONS") == Some(-43)
  {
  }

  lemma Entry44()
    ensures ErrorString(-44) == "CL_INVALID_PROGRAM" && CodeOf("CL_INVALID_PROGRAM") == Some(-44)
  {
  }

  lemma Entry45()
    ensures ErrorString(-45) == "CL_INVALID_PROGRAM_EXECUTABLE" && CodeOf("CL_INVALID_PROGRAM_EXECUTABLE") == Some(-45)
  {
  }

  lemma Entry46()
    ensures ErrorString(-46) == "CL_INVALID_KERNEL_NAME" && CodeOf("CL_INVALID_KERNEL_NAME") == Some(-46)
  {
  }

  lemma Entry47()
    ensures ErrorString(-47) == "CL_INVALID_KERNEL_DEFINITION" && CodeOf("CL_INVALID_KERNEL_DEFINITION") == Some(-47)
  {
  }

  lemma Entry48()
    ensures ErrorString(-48) == "CL_INVALID_KERNEL" && CodeOf("CL_INVALID_KERNEL") == Some(-48)
  {
  }

  lemma Entry49()
    ensures ErrorString(-49) == "CL_INVALID_ARG_INDEX" && CodeOf("CL_INVALID_ARG_INDEX") == Some(-49)
  {
  }

  lemma Entry50()
    ensures ErrorString(-50) == "CL_INVALID_ARG_VALUE" && CodeOf("CL_INVALID_ARG_VALUE") == Some(-50)
  {
  }

  lemma Entry51()
    ensures ErrorString(-51) == "CL_INVALID_ARG_SIZE" && CodeOf("CL_INVALID_ARG_SIZE") == Some(-51)
  {
  }

  lemma Entry52()
    ensures ErrorString(-52) == "CL_INVALID_KERNEL_ARGS" && CodeOf("CL_INVALID_KERNEL_ARGS") == Some(-52)
  {
  }

  lemma Entry53()
    ensures ErrorString(-53) == "CL_INVALID_WORK_DIMENSION" && CodeOf("CL_INVALID_WORK_DIMENSION") == Some(-53)
  {
  }

  lemma Entry54()
    ensures ErrorString(-54) == "CL_INVALID_WORK_GROUP_SIZE" && CodeOf("CL_INVALID_WORK_GROUP_SIZE") == Some(-54)
  {
  }

  lemma Entry55()
    ensures ErrorString(-55) == "CL_INVALID_WORK_ITEM_SIZE" && CodeOf("CL_INVALID_WORK_ITEM_SIZE") == Some(-55)
  {
  }

  lemma Entry56()
    ensures ErrorString(-56) == "CL_INVALID_GLOBAL_OFFSET" && CodeOf("CL_INVALID_GLOBAL_OFFSET") == Some(-56)
  {
  }

  lemma Entry57()
    ensures ErrorString(-57) == "CL_INVALID_EVENT_WAIT_LIST" && CodeOf("CL_INVALID_EVENT_WAIT_LIST") == Some(-57)
  {
  }

  lemma Entry58()
    ensures ErrorString(-58) == "CL_INVALID_EVENT" && CodeOf("CL_INVALID_EVENT") == Some(-58)
  {
  }

  lemma Entry59()
    ensures ErrorString(-59) == "CL_INVALID_OPERATION" && CodeOf("CL_INVALID_OPERATION") == Some(-59)
  {
  }

  lemma Entry60()
    ensures ErrorString(-60) == "CL_INVALID_GL_OBJECT" && CodeOf("CL_INVALID_GL_OBJECT") == Some(-60)
  {
  }

  lemma Entry61()
    ensures ErrorString(-61) == "CL_INVALID_BUFFER_SIZE" && CodeOf("CL_INVALID_BUFFER_SIZE") == Some(-61)
  {
  }

  lemma Entry62()
    ensures ErrorString(-62) == "CL_INVALID_MIP_LEVEL" && CodeOf("CL_INVALID_MIP_LEVEL") == Some(-62)
  {
  }

  lemma Entry63()
    ensures ErrorString(-63) == "CL_INVALID_GLOBAL_WORK_SIZE" && CodeOf("CL_INVALID_GLOBAL_WORK_SIZE") == Some(-63)
  {
  }

  lemma Entry64()
    ensures ErrorString(-64) == "CL_INVALID_PROPERTY" && CodeOf("CL_INVALID_PROPERTY") == Some(-64)
  {
  }

  lemma Entry65()
    ensures ErrorString(-65) == "CL_INVALID_IMAGE_DESCRIPTOR" && CodeOf("CL_INVALID_IMAGE_DESCRIPTOR") == Some(-65)
  {
  }

  lemma Entry66()
    ensures ErrorString(-66) == "CL_INVALID_COMPILER_OPTIONS" && CodeOf("CL_INVALID_COMPILER_OPTIONS") == Some(-66)
  {
  }

  lemma Entry67()
    ensures ErrorString(-67) == "CL_INVALID_LINKER_OPTIONS" && CodeOf("CL_INVALID_LINKER_OPTIONS") == Some(-67)
  {
  }

  lemma Entry68()
    ensures ErrorString(-68) == "CL_INVALID_DEVICE_PARTITION_COUNT" && CodeOf("CL_INVALID_DEVICE_PARTITION_COUNT") == Some(-68)
  {
  }

  lemma Entry1000()
    ensures ErrorString(-1000) == "CL_INVALID_GL_SHAREGROUP_REFERENCE_KHR" && CodeOf("CL_INVALID_GL_SHAREGROUP_REFERENCE_KHR") == Some(-1000)
  {
  }

  lemma Entry1001()
    ensures ErrorString(-1001) == "CL_PLATFORM_NOT_FOUND_KHR" && CodeOf("CL_PLATFORM_NOT_FOUND_KHR") == Some(-1001)
  {
  }

  lemma Entry1002()
    ensures ErrorString(-1002) == "CL_INVALID_D3D10_DEVICE_KHR" && CodeOf("CL_INVALID_D3D10_DEVICE_KHR") == Some(-1002)
  {
  }

  lemma Entry1003()
    ensures ErrorString(-1003) == "CL_INVALID_D3D10_RESOURCE_KHR" && CodeOf("CL_INVALID_D3D10_RESOURCE_KHR") == Some(-1003)
  {
  }

  lemma Entry1004()
    ensures ErrorString(-1004) == "CL_D3D10_RESOURCE_ALREADY_ACQUIRED_KHR" && CodeOf("CL_D3D10_RESOURCE_ALREADY_ACQUIRED_KHR") == Some(-1004)
  {
  }

  lemma Entry1005()
    ensures ErrorString(-1005) == "CL_D3D10_RESOURCE_NOT_ACQUIRED_KHR" && CodeOf("CL_D3D10_RESOURCE_NOT_ACQUIRED_KHR") == Some(-1005)
  {
  }

  lemma RuntimeRoundTrip(code: int)
    requires IsRuntime(code)
    ensures CodeOf(ErrorString(code)) == Some(code)
  {
    if code == 0 {
      Entry0();
    } else if code == -1 {
      Entry1();
    } else if code == -2 {
      Entry2();
    } else if code == -3 {
      Entry3();
    } else if code == -4 {
      Entry4();
    } else if code == -5 {
      Entry5();
    } else if code == -6 {
      Entry6();
    } else if code == -7 {
      Entry7();
    } else if code == -8 {
      Entry8();
    } else if code == -9 {
      Entry9();
    } else if code == -10 {
      Entry10();
    } else if code == -11 {
      Entry11();
    } else if code == -12 {
      Entry12();
    } else if code == -13 {
      Entry13();
    } else if code == -14 {
      Entry14();
    } else if code == -15 {
      Entry15();
    } else if code == -16 {
      Entry16();
    } else if code == -17 {
      Entry17();
    } else if code == -18 {
      Entry18();
    } else {
      Entry19();
    }
  }

  lemma CompileTimeRoundTrip(code: int)
    requires IsCompileTime(code)
    ensures CodeOf(ErrorString(code)) == Some(code)
  {
    if code == -30 {
      Entry30();
    } else if code == -31 {
      Entry31();
    } else if code == -32 {
      Entry32();
    } else if code == -33 {
      Entry33();
    } else if code == -34 {
      Entry34();
    } else if code == -35 {
      Entry35();
    } else if code == -36 {
      Entry36();
    } else if code == -37 {
      Entry37();
    } else if code == -38 {
      Entry38();
    } else if code == -39 {
      Entry39();
    } else if code == -40 {
      Entry40();
    } else if code == -41 {
      Entry41();
    } else if code == -42 {
      Entry42();
    } else if code == -43 {
      Entry43();
    } else if code == -44 {
      Entry44();
    } else if code == -45 {
      Entry45();
    } else if code == -46 {
      Entry46();
    } else if code == -47 {
      Entry47();
    } else if code == -48 {
      Entry48();
    } else if code == -49 {
      Entry49();
    } else if code == -50 {
      Entry50();
    } else if code == -51 {
      Entry51();
    } else if code == -52 {
      Entry52();
    } else if code == -53 {
      Entry53();
    } else if code == -54 {
      Entry54();
    } else if code == -55 {
      Entry55();
    } else if code == -56 {
      Entry56();
    } else if code == -57 {
      Entry57();
    } else if code == -58 {
      Entry58();
    } else if code == -59 {
      Entry59();
    } else if code == -60 {
      Entry60();
    } else if code == -61 {
      Entry61();
    } else if code == -62 {
      Entry62();
    } else if code == -63 {
      Entry63();
    } else if code == -64 {
      Entry64();
    } else if code == -65 {
      Entry65();
    } else if code == -66 {
      Entry66();
    } else if code == -67 {
      Entry67();
    } else {
      Entry68();
    }
  }

  lemma ExtensionRoundTrip(code: int)
    requires IsExtension(code)
    ensures CodeOf(ErrorString(code)) == Some(code)
  {
    if code == -1000 {
      Entry1000();
    } else if code == -1001 {
      Entry1001();
    } else if code == -1002 {
      Entry1002();
    } else if code == -1003 {
      Entry1003();
    } else if code == -1004 {
      Entry1004();
    } else {
      Entry1005();
    }
  }

  /** The inverse recovers every listed code from its name. */
  lemma RoundTrip(code: int)
    requires Listed(code)
    ensures CodeOf(ErrorString(code)) == Some(code)
  {
    if IsRuntime(code) {
      RuntimeRoundTrip(code);
    } else if IsCompileTime(code) {
      CompileTimeRoundTrip(code);
    } else {
      ExtensionRoundTrip(code);
    }
  }

  /** Distinct listed codes have distinct names. */
  lemma NamesInjective(a: int, b: int)
    requires Listed(a) && Listed(b) && ErrorString(a) == ErrorString(b)
    ensures a == b
  {
    RoundTrip(a);
    RoundTrip(b);
  }

  /** The generic message is never the name of a listed code, so it
      reports exactly the unlisted ones. */
  lemma UnknownIffUnlisted(code: int)
    ensures ErrorString(code) == Unknown <==> !Listed(code)
  {
    if Listed(code) {
      RoundTrip(code);
      assert CodeOf(Unknown) == None;
    }
  }
}
